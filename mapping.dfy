/**
 * Kannadafy/utils/mapping.py: `MappingLoader` reads an alphabet from a YAML,
 * JSON or text file; `MappingGenerator` writes a template mapping file.
 * The loaders do not validate what they return.
 */
module Mapping {
  import opened Runtime
  import opened Text
  import opened Paths

  const YamlShape := "YAML file must contain a 'characters' key with list of characters"
  const JsonShape := "JSON file must contain a list or dict with 'characters' key"

  /** `isinstance(data, dict) and 'characters' in data`. */
  predicate HasCharacters(data: Json) {
    data.JObject? && "characters" in data.fields
  }

  /** A parser's outcome as a result: a malformed document raises. */
  function Parsing(p: Parse): (r: Result<Json>)
    ensures r.Ok? <==> p.Parsed?
    ensures r.Ok? ==> r.value == p.value
  {
    match p
    case Parsed(v) => Ok(v)
    case Malformed(m) => Err(ParseError(m))
  }

  /** `load_yaml`: the `characters` entry of a mapping document. */
  function LoadYaml(filePath: string, fs: FileSystem, env: Env): (r: Result<Json>)
    ensures r.Ok? <==> (ReadText(fs, filePath).Ok?
      && env.yamlLoad(ReadText(fs, filePath).value).Parsed?
      && HasCharacters(env.yamlLoad(ReadText(fs, filePath).value).value))
    ensures r.Ok? ==> r.value == env.yamlLoad(ReadText(fs, filePath).value).value.fields["characters"]
    ensures (ReadText(fs, filePath).Ok? && env.yamlLoad(ReadText(fs, filePath).value).Parsed?
      && !HasCharacters(env.yamlLoad(ReadText(fs, filePath).value).value)) ==> r == Err(ValueError(YamlShape))
  {
    var content :- ReadText(fs, filePath);
    var data :- Parsing(env.yamlLoad(content));
    if HasCharacters(data) then Ok(data.fields["characters"]) else Err(ValueError(YamlShape))
  }

  /** `load_json`: a top-level list as it is, or the `characters` entry of an object. */
  function LoadJson(filePath: string, fs: FileSystem, env: Env): (r: Result<Json>)
    ensures r.Ok? <==> (ReadText(fs, filePath).Ok?
      && env.jsonLoad(ReadText(fs, filePath).value).Parsed?
      && (env.jsonLoad(ReadText(fs, filePath).value).value.JList?
          || HasCharacters(env.jsonLoad(ReadText(fs, filePath).value).value)))
    ensures r.Ok? && env.jsonLoad(ReadText(fs, filePath).value).value.JList? ==>
      r.value == env.jsonLoad(ReadText(fs, filePath).value).value
    ensures r.Ok? && !env.jsonLoad(ReadText(fs, filePath).value).value.JList? ==>
      r.value == env.jsonLoad(ReadText(fs, filePath).value).value.fields["characters"]
    ensures (ReadText(fs, filePath).Ok? && env.jsonLoad(ReadText(fs, filePath).value).Parsed?
      && !env.jsonLoad(ReadText(fs, filePath).value).value.JList?
      && !HasCharacters(env.jsonLoad(ReadText(fs, filePath).value).value)) ==> r == Err(ValueError(JsonShape))
  {
    var content :- ReadText(fs, filePath);
    var data :- Parsing(env.jsonLoad(content));
    if data.JList? then Ok(data)
    else if HasCharacters(data) then Ok(data.fields["characters"])
    else Err(ValueError(JsonShape))
  }

  /** A list of strings as a document. */
  function Strings(ss: seq<string>): (r: seq<Json>)
    ensures |r| == |ss| && forall i :: 0 <= i < |ss| ==> r[i] == JString(ss[i])
  {
    seq(|ss|, i requires 0 <= i < |ss| => JString(ss[i]))
  }

  /** `load_txt`: the stripped, non-empty lines of the file. */
  function LoadTxt(filePath: string, fs: FileSystem): (r: Result<Json>)
    ensures r.Ok? <==> ReadText(fs, filePath).Ok?
    ensures r.Ok? ==> r.value == JList(Strings(StrippedLines(ReadText(fs, filePath).value)))
  {
    var content :- ReadText(fs, filePath);
    Ok(JList(Strings(StrippedLines(content))))
  }

  /** The extensions `load` knows, lower-cased. */
  predicate KnownExtension(ext: string) {
    ext == ".yaml" || ext == ".yml" || ext == ".json" || ext == ".txt"
  }

  /**
   * `MappingLoader.load`: a missing path is refused before the extension is
   * looked at; the extension is compared case-insensitively.
   */
  function Load(filePath: string, fs: FileSystem, env: Env): (r: Result<Json>)
    ensures filePath !in fs ==> r == Err(FileNotFoundError("Mapping file '" + filePath + "' not found"))
    ensures filePath in fs && !KnownExtension(Lower(Extension(filePath))) ==>
      r == Err(ValueError("Unsupported file extension: " + Lower(Extension(filePath))))
    ensures r.Ok? ==> filePath in fs && KnownExtension(Lower(Extension(filePath)))
    ensures filePath in fs && (Lower(Extension(filePath)) == ".yaml" || Lower(Extension(filePath)) == ".yml") ==>
      r == LoadYaml(filePath, fs, env)
    ensures filePath in fs && Lower(Extension(filePath)) == ".json" ==> r == LoadJson(filePath, fs, env)
    ensures filePath in fs && Lower(Extension(filePath)) == ".txt" ==> r == LoadTxt(filePath, fs)
  {
    if filePath !in fs then Err(FileNotFoundError("Mapping file '" + filePath + "' not found"))
    else
      var ext := Lower(Extension(filePath));
      if ext == ".yaml" || ext == ".yml" then LoadYaml(filePath, fs, env)
      else if ext == ".json" then LoadJson(filePath, fs, env)
      else if ext == ".txt" then LoadTxt(filePath, fs)
      else Err(ValueError("Unsupported file extension: " + ext))
  }

  /** A text file of stripped lines loads as exactly those lines, repeats and all. */
  lemma LoadTxtLines(filePath: string, fs: FileSystem, env: Env, lines: seq<string>)
    requires filePath in fs && fs[filePath] == File(Join("\n", lines))
    requires Lower(Extension(filePath)) == ".txt"
    requires BareLines(lines)
    ensures Load(filePath, fs, env) == Ok(JList(Strings(lines)))
  {
    ReadLines(filePath, fs, lines);
    LoadOfTxt(filePath, fs, env, JList(Strings(lines)));
  }

  lemma LoadOfTxt(filePath: string, fs: FileSystem, env: Env, v: Json)
    requires filePath in fs && Lower(Extension(filePath)) == ".txt"
    requires LoadTxt(filePath, fs) == Ok(v)
    ensures Load(filePath, fs, env) == Ok(v)
  {
  }

  lemma ReadLines(filePath: string, fs: FileSystem, lines: seq<string>)
    requires filePath in fs && fs[filePath] == File(Join("\n", lines))
    requires BareLines(lines)
    ensures LoadTxt(filePath, fs) == Ok(JList(Strings(lines)))
  {
    StrippedLinesOfJoin(lines);
  }

  /** The loader does not validate: a two-line file naming one symbol twice loads as it is. */
  lemma LoaderDoesNotValidate(env: Env)
    ensures var fs := map["m.txt" := File("a\na")];
      Load("m.txt", fs, env) == Ok(JList([JString("a"), JString("a")]))
  {
    TxtExtension("m.txt");
    assert Join("\n", ["a", "a"]) == "a\na" by {
      JoinCons("\n", "a", ["a"]);
    }
    assert BareLines(["a", "a"]);
    LoadRepeatedLine("m.txt", map["m.txt" := File("a\na")], env, "a");
  }

  /** A `.txt` file holding the same line twice loads as a list naming that symbol twice. */
  lemma LoadRepeatedLine(filePath: string, fs: FileSystem, env: Env, w: string)
    requires filePath in fs && fs[filePath] == File(Join("\n", [w, w]))
    requires Lower(Extension(filePath)) == ".txt"
    requires BareLines([w, w])
    ensures Load(filePath, fs, env) == Ok(JList([JString(w), JString(w)]))
  {
    LoadTxtLines(filePath, fs, env, [w, w]);
    assert Strings([w, w]) == [JString(w), JString(w)];
  }

  lemma TxtExtension(path: string)
    requires path == "m.txt"
    ensures Lower(Extension(path)) == ".txt"
  {
    RFindAt(path, '/', -1);
    RFindAt(path, '.', 1);
    assert path[0] != '.';
    assert Extension(path) == path[1..];
    assert path[1..] == ".txt";
  }

  // ---------------------------------------------------------------------------
  // MappingGenerator

  /** The fields of a mapping template. */
  datatype MappingDescriptor = MappingDescriptor(
    name: string, description: string, author: string, scriptType: string, characters: seq<string>)

  /** The template `create_template` fills in. */
  function Template(scriptType: string, characters: seq<string>): (d: MappingDescriptor)
    ensures d.scriptType == scriptType && d.characters == characters
    ensures d.name == "Custom " + Title(scriptType) + " Mapping"
  {
    MappingDescriptor("Custom " + Title(scriptType) + " Mapping", "Custom character mapping for Kannadafy",
                      "Your Name", scriptType, characters)
  }

  /** The template as the document the serializers write. */
  function ToJson(d: MappingDescriptor): (j: Json)
    ensures HasCharacters(j) && j.fields["characters"] == JList(Strings(d.characters))
  {
    JObject(map[
      "name" := JString(d.name),
      "description" := JString(d.description),
      "author" := JString(d.author),
      "script_type" := JString(d.scriptType),
      "characters" := JList(Strings(d.characters))])
  }

  const TemplateExtension := "Template file must have .yaml, .yml, or .json extension"

  /** The extensions a template may be written with, lower-cased. */
  /** The extensions `create_template` writes as YAML. */
  predicate YamlExtension(ext: string) {
    ext == ".yaml" || ext == ".yml"
  }

  predicate TemplateExtensionOk(ext: string) {
    ext == ".yaml" || ext == ".yml" || ext == ".json"
  }

  /**
   * `create_template`: the file is opened for writing (created or truncated)
   * before the extension is checked, so a refused extension leaves an empty
   * file behind.
   */
  function CreateTemplate(outputFile: string, scriptType: string, characters: seq<string>,
                          fs: FileSystem, env: Env): (e: Effect<()>)
    ensures outputFile in fs && fs[outputFile].Directory? ==> e == Effect(Err(OSError(IsADirectory(outputFile))), fs)
    ensures !(outputFile in fs && fs[outputFile].Directory?) ==>
      e.fs.Keys == fs.Keys + {outputFile} && outputFile in e.fs && e.fs[outputFile].File?
      && (forall p :: p in fs && p != outputFile ==> e.fs[p] == fs[p])
    ensures e.result.Ok? <==> !(outputFile in fs && fs[outputFile].Directory?) && TemplateExtensionOk(Lower(Extension(outputFile)))
    ensures !(outputFile in fs && fs[outputFile].Directory?) && !TemplateExtensionOk(Lower(Extension(outputFile))) ==>
      e == Effect(Err(ValueError(TemplateExtension)), fs[outputFile := File("")])
    ensures e.result.Ok? && YamlExtension(Lower(Extension(outputFile))) ==>
      e.fs == fs[outputFile := File(env.yamlDump(ToJson(Template(scriptType, characters))))]
    ensures e.result.Ok? && Lower(Extension(outputFile)) == ".json" ==>
      e.fs == fs[outputFile := File(env.jsonDump(ToJson(Template(scriptType, characters))))]
  {
    var doc := ToJson(Template(scriptType, characters));
    var ext := Lower(Extension(outputFile));
    match OpenForWriting(fs, outputFile)
    case Err(err) => Effect(Err(err), fs)
    case Ok(created) =>
      if YamlExtension(ext) then Effect(Ok(()), created[outputFile := File(env.yamlDump(doc))])
      else if ext == ".json" then Effect(Ok(()), created[outputFile := File(env.jsonDump(doc))])
      else Effect(Err(ValueError(TemplateExtension)), created)
  }

  /** The serializers read back what they wrote. */
  predicate FaithfulSerializers(env: Env, doc: Json) {
    env.yamlLoad(env.yamlDump(doc)) == Parsed(doc) && env.jsonLoad(env.jsonDump(doc)) == Parsed(doc)
  }

  /** A template written by `create_template` loads back as its characters. */
  lemma TemplateRoundTrip(outputFile: string, scriptType: string, characters: seq<string>, fs: FileSystem, env: Env)
    requires !(outputFile in fs && fs[outputFile].Directory?)
    requires TemplateExtensionOk(Lower(Extension(outputFile)))
    requires FaithfulSerializers(env, ToJson(Template(scriptType, characters)))
    ensures var e := CreateTemplate(outputFile, scriptType, characters, fs, env);
      e.result == Ok(()) && Load(outputFile, e.fs, env) == Ok(JList(Strings(characters)))
  {
  }
}
