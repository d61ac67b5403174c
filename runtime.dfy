/**
 * The parts of the Python runtime that the core touches, as values:
 * exceptions, the file system, parsed YAML/JSON documents and the foreign
 * libraries (parsers, serializers, pretty-printer), which are passed in as
 * functions because their code is not part of this model.
 */
module Runtime {

  datatype Option<+T> = None | Some(value: T) {
    predicate IsFailure() { None? }
    function PropagateFailure<U>(): Option<U> requires None? { None }
    function Extract(): T requires Some? { value }
  }

  /** The exceptions the core raises or lets through; `message` is what `str(e)` shows. */
  datatype Error =
    | ValueError(message: string)
    | FileNotFoundError(message: string)
    | RuntimeError(message: string)
    | OSError(message: string)             // open() on a directory
    | UnicodeDecodeError(message: string)  // a file whose bytes are not UTF-8
    | ParseError(message: string)          // yaml.YAMLError, json.JSONDecodeError, SyntaxError of ast.literal_eval
    | TypeError(message: string)
    | KeyError(message: string)

  datatype Result<+T> = Ok(value: T) | Err(error: Error) {
    predicate IsFailure() { Err? }
    function PropagateFailure<U>(): Result<U> requires Err? { Err(error) }
    function Extract(): T requires Ok? { value }
  }

  /**
   * What a path names. A file's content is the text that `open(..., encoding='utf-8')`
   * yields, i.e. after decoding and universal-newline translation.
   */
  datatype Node = File(content: string) | Undecodable(reason: string) | Directory

  /** The paths that exist (`os.path.exists`) and what they name. */
  type FileSystem = map<string, Node>

  /** `os.path.isfile`. */
  predicate IsFile(fs: FileSystem, path: string) {
    path in fs && !fs[path].Directory?
  }

  function NoSuchFile(path: string): string {
    "[Errno 2] No such file or directory: '" + path + "'"
  }

  function IsADirectory(path: string): string {
    "[Errno 21] Is a directory: '" + path + "'"
  }

  /** `open(path, 'r', encoding='utf-8').read()`. */
  function ReadText(fs: FileSystem, path: string): Result<string> {
    if path !in fs then Err(FileNotFoundError(NoSuchFile(path)))
    else match fs[path]
      case File(content) => Ok(content)
      case Undecodable(reason) => Err(UnicodeDecodeError(reason))
      case Directory => Err(OSError(IsADirectory(path)))
  }

  /** `open(path, 'w', encoding='utf-8')`: creates or truncates the file. */
  function OpenForWriting(fs: FileSystem, path: string): Result<FileSystem> {
    if path in fs && fs[path].Directory? then Err(OSError(IsADirectory(path)))
    else Ok(fs[path := File("")])
  }

  /** A parsed YAML or JSON document (numbers are kept as integers). */
  datatype Json =
    | JNull
    | JBool(b: bool)
    | JNumber(n: int)
    | JString(s: string)
    | JList(items: seq<Json>)
    | JObject(fields: map<string, Json>)

  /** What a parser makes of a text. */
  datatype Parse = Parsed(value: Json) | Malformed(message: string)

  /**
   * What the `.py` mapping branch makes of a file: no `name = [...]` assignment,
   * or the outcome of `ast.literal_eval` on the first one.
   */
  datatype PyScan = NoListAssignment | ListLiteral(literal: Parse)

  /** The foreign libraries, as total functions. */
  datatype Env = Env(
    yamlLoad: string -> Parse,               // yaml.safe_load
    jsonLoad: string -> Parse,               // json.load
    pyScan: string -> PyScan,                // re.search + ast.literal_eval
    yamlDump: Json -> string,                // yaml.safe_dump(..., allow_unicode=True, default_flow_style=False)
    jsonDump: Json -> string,                // json.dump(..., ensure_ascii=False, indent=2)
    pformat: map<string, nat> -> string)     // pprint.pformat

  /** The outcome of an operation that may have changed the file system. */
  datatype Effect<+T> = Effect(result: Result<T>, fs: FileSystem)
}
