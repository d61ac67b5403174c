/**
 * Kannadafy/core.py around the codec: loading a custom mapping, writing a
 * template, choosing the alphabet, and the two entry points `obfuscate` and
 * `obfuscate_multiple`.
 */
module Core {
  import opened Runtime
  import opened Seqs
  import opened Text
  import opened Paths
  import opened Validation
  import opened TextObfuscation
  import opened Mapping
  import opened Scripts
  import opened Codec

  // ---------------------------------------------------------------------------
  // load_custom_mapping

  const NoListAssignment := "Python file must contain a list assignment"
  const NotAListOfStrings := "mapping entries must be strings"
  const LoadFailed := "Failed to load mapping file: "

  /**
   * The symbols of a parsed `characters` value, as `validate_mapping` and
   * `encode_string` see them: a list of strings, or a string read as its
   * characters. Scalars fail `len()` with `TypeError`.
   */
  function AsSymbols(j: Json): (r: Result<seq<string>>)
    ensures j.JString? ==> r.Ok? && |r.value| == |j.s| && forall i :: 0 <= i < |j.s| ==> r.value[i] == [j.s[i]]
    ensures j.JList? && (forall i :: 0 <= i < |j.items| ==> j.items[i].JString?) ==>
      r.Ok? && |r.value| == |j.items| && forall i :: 0 <= i < |j.items| ==> r.value[i] == j.items[i].s
    ensures j.JList? && (exists i :: 0 <= i < |j.items| && !j.items[i].JString?) ==> r.Err?
    ensures r.Ok? ==> j.JString? || j.JList?
    ensures r.Err? ==> r.error.TypeError?
  {
    match j
    case JString(s) => Ok(seq(|s|, i requires 0 <= i < |s| => [s[i]]))
    case JList(items) =>
      if forall i :: 0 <= i < |items| ==> items[i].JString?
      then Ok(seq(|items|, i requires 0 <= i < |items| => items[i].s))
      else Err(TypeError(NotAListOfStrings))
    case JNumber(_) => Err(TypeError("object of type 'int' has no len()"))
    case JBool(_) => Err(TypeError("object of type 'bool' has no len()"))
    case JNull => Err(TypeError("object of type 'NoneType' has no len()"))
    case JObject(_) => Err(TypeError(NotAListOfStrings))
  }

  /** `validate_mapping(chars); return chars`. */
  function Validated(j: Json): (r: Result<seq<string>>)
    ensures r.Ok? ==> ValidAlphabet(r.value) && AsSymbols(j) == Ok(r.value)
    ensures AsSymbols(j).Ok? && ValidAlphabet(AsSymbols(j).value) ==> r.Ok?
  {
    var chars :- AsSymbols(j);
    var _ :- ValidateMapping(chars);
    Ok(chars)
  }

  /**
   * The `try` block of `load_custom_mapping`. Its YAML and JSON branches do
   * what `MappingLoader.load_yaml` and `load_json` do, then validate; every
   * extension other than yaml, yml, json and py is read as text.
   */
  function LoadCharacters(mappingFile: string, fs: FileSystem, env: Env): Result<seq<string>> {
    var ext := Lower(Extension(mappingFile));
    if ext == ".yaml" || ext == ".yml" then
      var data :- LoadYaml(mappingFile, fs, env);
      Validated(data)
    else if ext == ".json" then
      var data :- LoadJson(mappingFile, fs, env);
      Validated(data)
    else if ext == ".py" then
      var content :- ReadText(fs, mappingFile);
      match env.pyScan(content)
      case NoListAssignment => Err(ValueError(NoListAssignment))
      case ListLiteral(literal) =>
        var data :- Parsing(literal);
        Validated(data)
    else
      var data :- LoadTxt(mappingFile, fs);
      Validated(data)
  }

  /**
   * `load_custom_mapping`: a missing file raises `FileNotFoundError` before
   * anything is parsed; every later failure, validation included, is
   * re-raised as `ValueError("Failed to load mapping file: ...")`.
   */
  function LoadCustomMapping(mappingFile: string, fs: FileSystem, env: Env): (r: Result<seq<string>>)
    ensures mappingFile !in fs ==> r == Err(FileNotFoundError("Mapping file '" + mappingFile + "' not found"))
    ensures mappingFile in fs && r.Err? ==> r.error.ValueError? && LoadFailed <= r.error.message
    ensures r.Ok? ==> ValidAlphabet(r.value)
  {
    if mappingFile !in fs then Err(FileNotFoundError("Mapping file '" + mappingFile + "' not found"))
    else
      match LoadCharacters(mappingFile, fs, env)
      case Ok(chars) => Ok(chars)
      case Err(e) => Err(ValueError(LoadFailed + e.message))
  }

  /** A known extension loads through `core` as it loads through `MappingLoader`, then validated. */
  lemma CoreLoaderAgrees(mappingFile: string, fs: FileSystem, env: Env)
    requires mappingFile in fs && KnownExtension(Lower(Extension(mappingFile)))
    ensures var r := LoadCustomMapping(mappingFile, fs, env);
      r.Ok? <==> Load(mappingFile, fs, env).Ok?
                 && AsSymbols(Load(mappingFile, fs, env).value).Ok?
                 && ValidAlphabet(AsSymbols(Load(mappingFile, fs, env).value).value)
    ensures var r := LoadCustomMapping(mappingFile, fs, env);
      r.Ok? ==> AsSymbols(Load(mappingFile, fs, env).value) == Ok(r.value)
  {
  }

  /** An extension `MappingLoader` refuses, such as `.csv`, is read by `core` as one symbol per line. */
  lemma UnknownExtensionIsText(mappingFile: string, fs: FileSystem, env: Env)
    requires mappingFile in fs
    requires var ext := Lower(Extension(mappingFile)); !KnownExtension(ext) && ext != ".py"
    ensures Load(mappingFile, fs, env).Err? && Load(mappingFile, fs, env).error.ValueError?
    ensures fs[mappingFile].File? ==>
      var lines := StrippedLines(fs[mappingFile].content);
      (LoadCustomMapping(mappingFile, fs, env).Ok? <==> ValidAlphabet(lines))
      && (ValidAlphabet(lines) ==> LoadCustomMapping(mappingFile, fs, env) == Ok(lines))
  {
    if fs[mappingFile].File? {
      var lines := StrippedLines(fs[mappingFile].content);
      var j := JList(Strings(lines));
      assert LoadTxt(mappingFile, fs) == Ok(j);
      assert LoadCharacters(mappingFile, fs, env) == Validated(j);
      StringsAsSymbols(lines);
    }
  }

  // ---------------------------------------------------------------------------
  // generate_mapping_template

  const CoreTemplateExtension := "Template file must have .json, .yaml, or .yml extension"
  const TemplateFailed := "Failed to create template: "

  /** The message for an unknown script, listing `CHARACTER_SETS` in order (`GetAvailableScripts()`). */
  function UnknownScript(): string {
    "Unknown script type. Available types: " + Join(", ", ScriptNames)
  }

  /** The message lists the scripts as "kannada, devanagari, telugu, tamil, greek". */
  lemma UnknownScriptNames()
    ensures Join(", ", ScriptNames) == "kannada" + ", " + "devanagari" + ", " + "telugu" + ", " + "tamil" + ", " + "greek"
  {
    JoinOfFive(", ", "kannada", "devanagari", "telugu", "tamil", "greek");
  }

  lemma JoinOfFive(sep: string, a: string, b: string, c: string, d: string, e: string)
    ensures Join(sep, [a, b, c, d, e]) == a + sep + b + sep + c + sep + d + sep + e
  {
    JoinCons(sep, d, [e]);
    assert [d] + [e] == [d, e];
    JoinCons(sep, c, [d, e]);
    assert [c] + [d, e] == [c, d, e];
    JoinCons(sep, b, [c, d, e]);
    assert [b] + [c, d, e] == [b, c, d, e];
    JoinCons(sep, a, [b, c, d, e]);
    assert [a] + [b, c, d, e] == [a, b, c, d, e];
  }

  /**
   * The `try` block of `generate_mapping_template`: the file is opened for
   * writing before the extension is checked (`.json` first, then
   * `.yaml`/`.yml`), so a refused extension leaves an empty file behind.
   */
  function WriteTemplate(outputFile: string, doc: Json, fs: FileSystem, env: Env): (e: Effect<()>)
    ensures outputFile in fs && fs[outputFile].Directory? ==> e == Effect(Err(OSError(IsADirectory(outputFile))), fs)
    ensures e.result.Ok? <==> !(outputFile in fs && fs[outputFile].Directory?) && TemplateExtensionOk(Lower(Extension(outputFile)))
    ensures !(outputFile in fs && fs[outputFile].Directory?) ==>
      e.fs.Keys == fs.Keys + {outputFile} && e.fs[outputFile].File?
      && forall p :: p in fs && p != outputFile ==> e.fs[p] == fs[p]
    ensures !(outputFile in fs && fs[outputFile].Directory?) && !TemplateExtensionOk(Lower(Extension(outputFile))) ==>
      e == Effect(Err(ValueError(CoreTemplateExtension)), fs[outputFile := File("")])
    ensures e.result.Ok? && Lower(Extension(outputFile)) == ".json" ==>
      e.fs == fs[outputFile := File(env.jsonDump(doc))]
    ensures e.result.Ok? && (Lower(Extension(outputFile)) == ".yaml" || Lower(Extension(outputFile)) == ".yml") ==>
      e.fs == fs[outputFile := File(env.yamlDump(doc))]
  {
    var ext := Lower(Extension(outputFile));
    match OpenForWriting(fs, outputFile)
    case Err(err) => Effect(Err(err), fs)
    case Ok(created) =>
      if ext == ".json" then Effect(Ok(()), created[outputFile := File(env.jsonDump(doc))])
      else if ext == ".yaml" || ext == ".yml" then Effect(Ok(()), created[outputFile := File(env.yamlDump(doc))])
      else Effect(Err(ValueError(CoreTemplateExtension)), created)
  }

  /**
   * `generate_mapping_template`: an unknown script raises before any file is
   * opened; what fails while writing is re-raised as
   * "Failed to create template: ...".
   */
  function GenerateMappingTemplate(outputFile: string, scriptType: string, fs: FileSystem, env: Env): (e: Effect<()>)
    ensures scriptType !in CharacterSets ==> e == Effect(Err(ValueError(UnknownScript())), fs)
    ensures e.result.Ok? <==>
      scriptType in CharacterSets && !(outputFile in fs && fs[outputFile].Directory?)
      && TemplateExtensionOk(Lower(Extension(outputFile)))
    ensures scriptType in CharacterSets && e.result.Err? ==>
      e.result.error.ValueError? && TemplateFailed <= e.result.error.message
    ensures scriptType in CharacterSets ==>
      e.fs == WriteTemplate(outputFile, ToJson(Template(scriptType, CharacterSets[scriptType])), fs, env).fs
  {
    if scriptType !in CharacterSets then Effect(Err(ValueError(UnknownScript())), fs)
    else
      var w := WriteTemplate(outputFile, ToJson(Template(scriptType, CharacterSets[scriptType])), fs, env);
      match w.result
      case Ok(_) => w
      case Err(err) => Effect(Err(ValueError(TemplateFailed + err.message)), w.fs)
  }

  lemma StringsAsSymbols(chars: seq<string>)
    ensures AsSymbols(JList(Strings(chars))) == Ok(chars)
  {
    var j := JList(Strings(chars));
    assert forall i :: 0 <= i < |j.items| ==> j.items[i].JString?;
    assert AsSymbols(j).value == chars;
  }

  /** A generated template loads back, through `load_custom_mapping`, as its script's table. */
  lemma GeneratedTemplateRoundTrip(outputFile: string, scriptType: string, fs: FileSystem, env: Env)
    requires scriptType in CharacterSets
    requires !(outputFile in fs && fs[outputFile].Directory?)
    requires TemplateExtensionOk(Lower(Extension(outputFile)))
    requires FaithfulSerializers(env, ToJson(Template(scriptType, CharacterSets[scriptType])))
    ensures var e := GenerateMappingTemplate(outputFile, scriptType, fs, env);
      e.result == Ok(()) && LoadCustomMapping(outputFile, e.fs, env) == Ok(CharacterSets[scriptType])
  {
    var chars := CharacterSets[scriptType];
    var e := GenerateMappingTemplate(outputFile, scriptType, fs, env);
    SameTemplateFile(outputFile, scriptType, chars, fs, env);
    TemplateRoundTrip(outputFile, scriptType, chars, fs, env);
    assert Load(outputFile, e.fs, env) == Ok(JList(Strings(chars)));
    CoreLoaderAgrees(outputFile, e.fs, env);
    CharacterSetsValid(scriptType);
    StringsAsSymbols(chars);
  }

  /** `core` and `MappingGenerator` write the same template file; only their error messages differ. */
  lemma SameTemplateFile(outputFile: string, scriptType: string, characters: seq<string>, fs: FileSystem, env: Env)
    ensures WriteTemplate(outputFile, ToJson(Template(scriptType, characters)), fs, env).fs
         == CreateTemplate(outputFile, scriptType, characters, fs, env).fs
    ensures WriteTemplate(outputFile, ToJson(Template(scriptType, characters)), fs, env).result.Ok?
        <==> CreateTemplate(outputFile, scriptType, characters, fs, env).result.Ok?
  {
  }

  // ---------------------------------------------------------------------------
  // Choosing the alphabet

  const InsufficientWords := "Could not generate sufficient mapping from text files"

  /**
   * The branches both entry points share, in their order: text files, then a
   * custom alphabet (validated, its `ValueError` not wrapped), then a mapping
   * file; `None` when none is given (an empty list or path counts as none).
   */
  function GivenAlphabet(textFiles: seq<string>, customAlphabet: seq<string>, mappingFile: string,
                         fs: FileSystem, env: Env): Option<Result<seq<string>>> {
    if |textFiles| > 0 then
      Some(match TextFileWords(textFiles, fs)
           case None => Err(ValueError(InsufficientWords))
           case Some(words) => Ok(words))
    else if |customAlphabet| > 0 then
      Some(var _ :- ValidateMapping(customAlphabet); Ok(customAlphabet))
    else if mappingFile != "" then
      Some(LoadCustomMapping(mappingFile, fs, env))
    else None
  }

  /** The alphabet of `obfuscate`: an unknown script falls back to kannada. */
  function ObfuscateAlphabet(textFiles: seq<string>, customAlphabet: seq<string>, mappingFile: string,
                             scriptType: string, fs: FileSystem, env: Env): Result<seq<string>> {
    match GivenAlphabet(textFiles, customAlphabet, mappingFile, fs, env)
    case Some(r) => r
    case None => Ok(if scriptType in CharacterSets then CharacterSets[scriptType] else Kannada)
  }

  /** The alphabet of `obfuscate_multiple`: an unknown script raises. */
  function MultipleAlphabet(textFiles: seq<string>, customAlphabet: seq<string>, mappingFile: string,
                            alphabetType: string, fs: FileSystem, env: Env): Result<seq<string>> {
    match GivenAlphabet(textFiles, customAlphabet, mappingFile, fs, env)
    case Some(r) => r
    case None =>
      if alphabetType in CharacterSets then Ok(CharacterSets[alphabetType])
      else Err(ValueError("Unknown alphabet type: " + alphabetType))
  }

  /** Whatever the source, a chosen alphabet has at least ten symbols and no repeats. */
  lemma ChosenAlphabetsValid(textFiles: seq<string>, customAlphabet: seq<string>, mappingFile: string,
                             scriptType: string, fs: FileSystem, env: Env)
    ensures var r := ObfuscateAlphabet(textFiles, customAlphabet, mappingFile, scriptType, fs, env);
      r.Ok? ==> ValidAlphabet(r.value)
    ensures var r := MultipleAlphabet(textFiles, customAlphabet, mappingFile, scriptType, fs, env);
      r.Ok? ==> ValidAlphabet(r.value)
  {
    KannadaValid();
    if |textFiles| > 0 {
      TextFileWordsSpec(textFiles, fs);
    } else if |customAlphabet| == 0 && mappingFile == "" && scriptType in CharacterSets {
      CharacterSetsValid(scriptType);
    }
  }

  /**
   * The precedence: text files win over everything; a custom alphabet over a
   * mapping file and the script; a mapping file over the script. The two entry
   * points differ only when no source is given and the script is unknown.
   */
  lemma AlphabetPrecedence(textFiles: seq<string>, customAlphabet: seq<string>, mappingFile: string,
                           scriptType: string, fs: FileSystem, env: Env)
    ensures |textFiles| > 0 ==>
      ObfuscateAlphabet(textFiles, customAlphabet, mappingFile, scriptType, fs, env)
      == (if TextFileWords(textFiles, fs).Some? then Ok(TextFileWords(textFiles, fs).value)
          else Err(ValueError(InsufficientWords)))
    ensures |textFiles| == 0 && |customAlphabet| > 0 ==>
      ObfuscateAlphabet(textFiles, customAlphabet, mappingFile, scriptType, fs, env)
      == (if ValidAlphabet(customAlphabet) then Ok(customAlphabet) else Err(ValidateMapping(customAlphabet).error))
    ensures |textFiles| == 0 && |customAlphabet| == 0 && mappingFile != "" ==>
      ObfuscateAlphabet(textFiles, customAlphabet, mappingFile, scriptType, fs, env)
      == LoadCustomMapping(mappingFile, fs, env)
    ensures |textFiles| == 0 && |customAlphabet| == 0 && mappingFile == "" ==>
      ObfuscateAlphabet(textFiles, customAlphabet, mappingFile, scriptType, fs, env)
      == Ok(if scriptType in CharacterSets then CharacterSets[scriptType] else Kannada)
    ensures (|textFiles| > 0 || |customAlphabet| > 0 || mappingFile != "" || scriptType in CharacterSets) ==>
      MultipleAlphabet(textFiles, customAlphabet, mappingFile, scriptType, fs, env)
      == ObfuscateAlphabet(textFiles, customAlphabet, mappingFile, scriptType, fs, env)
    ensures |textFiles| == 0 && |customAlphabet| == 0 && mappingFile == "" && scriptType !in CharacterSets ==>
      MultipleAlphabet(textFiles, customAlphabet, mappingFile, scriptType, fs, env)
      == Err(ValueError("Unknown alphabet type: " + scriptType))
  {
  }

  // ---------------------------------------------------------------------------
  // obfuscate

  /** The input file's text, encoded: `open(...).read()` followed by `encode_string`. */
  function EncodeFile(inputFile: string, alphabet: seq<string>, fs: FileSystem): (r: Result<EncodedDocument>)
    ensures r.Ok? <==> ReadText(fs, inputFile).Ok? && EncodeString(ReadText(fs, inputFile).value, alphabet).Ok?
    ensures r.Ok? ==> r == EncodeString(ReadText(fs, inputFile).value, alphabet)
  {
    var content :- ReadText(fs, inputFile);
    EncodeString(content, alphabet)
  }

  /** The `try` body shared by both entry points: read the input, encode it, write the output. */
  function WriteObfuscated(inputFile: string, outputFile: string, alphabet: seq<string>,
                           fs: FileSystem, env: Env): (e: Effect<()>)
    ensures e.result.Err? ==> e.fs == fs
    ensures e.result.Ok? <==> EncodeFile(inputFile, alphabet, fs).Ok? && !(outputFile in fs && fs[outputFile].Directory?)
    ensures e.result.Ok? ==>
      e.fs == fs[outputFile := File(Render(EncodeFile(inputFile, alphabet, fs).value, env.pformat))]
  {
    match EncodeFile(inputFile, alphabet, fs)
    case Err(err) => Effect(Err(err), fs)
    case Ok(doc) =>
      match OpenForWriting(fs, outputFile)
      case Err(err) => Effect(Err(err), fs)
      case Ok(created) => Effect(Ok(()), created[outputFile := File(Render(doc, env.pformat))])
  }

  const ObfuscationFailed := "Obfuscation failed: "

  /**
   * `obfuscate`: a missing input raises `FileNotFoundError` before the
   * alphabet is chosen; errors while choosing it propagate as they are;
   * errors of the read, encode and write are wrapped in `RuntimeError`.
   */
  function Obfuscate(inputFilepath: string, outputFilepath: string, mappingFile: string,
                     customAlphabet: seq<string>, textFiles: seq<string>, scriptType: string,
                     fs: FileSystem, env: Env): (e: Effect<bool>)
    ensures inputFilepath !in fs ==> e == Effect(Err(FileNotFoundError("Input file " + inputFilepath + " not found")), fs)
    ensures e.result.Ok? ==> e.result.value
    ensures e.result.Err? ==> e.fs == fs
    ensures inputFilepath in fs && ObfuscateAlphabet(textFiles, customAlphabet, mappingFile, scriptType, fs, env).Err? ==>
      e.result == Err(ObfuscateAlphabet(textFiles, customAlphabet, mappingFile, scriptType, fs, env).error)
    ensures var a := ObfuscateAlphabet(textFiles, customAlphabet, mappingFile, scriptType, fs, env);
      e.result.Ok? <==>
        inputFilepath in fs && a.Ok? && WriteObfuscated(inputFilepath, outputFilepath, a.value, fs, env).result.Ok?
    ensures var a := ObfuscateAlphabet(textFiles, customAlphabet, mappingFile, scriptType, fs, env);
      e.result.Ok? ==> e.fs == WriteObfuscated(inputFilepath, outputFilepath, a.value, fs, env).fs
    ensures var a := ObfuscateAlphabet(textFiles, customAlphabet, mappingFile, scriptType, fs, env);
      inputFilepath in fs && a.Ok? && WriteObfuscated(inputFilepath, outputFilepath, a.value, fs, env).result.Err? ==>
        e.result == Err(RuntimeError(ObfuscationFailed
                                     + WriteObfuscated(inputFilepath, outputFilepath, a.value, fs, env).result.error.message))
  {
    if inputFilepath !in fs then Effect(Err(FileNotFoundError("Input file " + inputFilepath + " not found")), fs)
    else
      match ObfuscateAlphabet(textFiles, customAlphabet, mappingFile, scriptType, fs, env)
      case Err(err) => Effect(Err(err), fs)
      case Ok(alphabet) =>
        var w := WriteObfuscated(inputFilepath, outputFilepath, alphabet, fs, env);
        match w.result
        case Ok(_) => Effect(Ok(true), w.fs)
        case Err(err) => Effect(Err(RuntimeError(ObfuscationFailed + err.message)), w.fs)
  }

  /**
   * With a built-in script, `obfuscate` succeeds on every readable non-empty
   * input, and the file it writes is the stub for a document that decodes to
   * the input.
   */
  lemma ObfuscateRoundTrip(inputFilepath: string, outputFilepath: string, scriptType: string,
                           fs: FileSystem, env: Env)
    requires inputFilepath in fs && fs[inputFilepath].File? && fs[inputFilepath].content != []
    requires !(outputFilepath in fs && fs[outputFilepath].Directory?)
    ensures var e := Obfuscate(inputFilepath, outputFilepath, "", [], [], scriptType, fs, env);
      var content := fs[inputFilepath].content;
      var alphabet := if scriptType in CharacterSets then CharacterSets[scriptType] else Kannada;
      e.result == Ok(true)
      && EncodeString(content, alphabet).Ok?
      && e.fs == fs[outputFilepath := File(Render(EncodeString(content, alphabet).value, env.pformat))]
      && Decoded(EncodeString(content, alphabet).value) == Some(content)
  {
    var alphabet := if scriptType in CharacterSets then CharacterSets[scriptType] else Kannada;
    if scriptType in CharacterSets {
      CharacterSetsValid(scriptType);
    } else {
      KannadaValid();
    }
    RoundTrip(fs[inputFilepath].content, alphabet);
  }

  // ---------------------------------------------------------------------------
  // obfuscate_multiple

  /** `join(output_dir, base + "_obfuscated" + ext)` for the basename of the input. */
  function ObfuscatedPath(outputDir: string, inputFile: string): string {
    var parts := SplitExt(Basename(inputFile));
    JoinPath(outputDir, parts.0 + "_obfuscated" + parts.1)
  }

  lemma ObfuscatedPathExample()
    ensures ObfuscatedPath("out", "src/test.py") == "out/test_obfuscated.py"
  {
    ExampleBasename();
    ExampleSplitExt();
    var name := "test" + "_obfuscated" + ".py";
    assert JoinPath("out", name) == "out" + "/" + name;
  }

  lemma ExampleBasename()
    ensures Basename("src/test.py") == "test.py"
  {
    var p := "src/test.py";
    RFindAt(p, '/', 3);
  }

  lemma ExampleSplitExt()
    ensures SplitExt("test.py") == ("test", ".py")
  {
    var b := "test.py";
    RFindAt(b, '/', -1);
    RFindAt(b, '.', 4);
    assert b[0] != '.';
    assert b[..4] == "test" && b[4..] == ".py";
  }

  /** `os.makedirs(output_dir, exist_ok=True)` for the directory itself; a file in its place raises. */
  function MakeDirs(fs: FileSystem, dir: string): (r: Result<FileSystem>)
    ensures r.Ok? <==> !(dir in fs && !fs[dir].Directory?)
    ensures r.Ok? ==> r.value == fs[dir := Directory]
  {
    if dir in fs && !fs[dir].Directory? then Err(OSError("[Errno 17] File exists: '" + dir + "'"))
    else Ok(fs[dir := Directory])
  }

  /** The loop of `obfuscate_multiple` over the first inputs: the successes recorded so far, and the files. */
  function Processed(files: seq<string>, outputDir: string, alphabet: seq<string>,
                     fs: FileSystem, env: Env): (map<string, string>, FileSystem) {
    if |files| == 0 then (map[], fs)
    else
      var before := Processed(files[..|files| - 1], outputDir, alphabet, fs, env);
      var inputFile := files[|files| - 1];
      if inputFile !in before.1 then before
      else
        var outputFile := ObfuscatedPath(outputDir, inputFile);
        var w := WriteObfuscated(inputFile, outputFile, alphabet, before.1, env);
        (if w.result.Ok? then before.0[inputFile := outputFile] else before.0, w.fs)
  }

  /** `obfuscate_multiple`, up to the loop: the directory is made before the alphabet is chosen. */
  function ObfuscateMultipleSpec(inputFilepaths: seq<string>, outputDir: string, alphabetType: string,
                                 mappingFile: string, customAlphabet: seq<string>, textFiles: seq<string>,
                                 fs: FileSystem, env: Env): Effect<map<string, string>> {
    match MakeDirs(fs, outputDir)
    case Err(err) => Effect(Err(err), fs)
    case Ok(fs1) =>
      match MultipleAlphabet(textFiles, customAlphabet, mappingFile, alphabetType, fs1, env)
      case Err(err) => Effect(Err(err), fs1)
      case Ok(alphabet) =>
        var p := Processed(inputFilepaths, outputDir, alphabet, fs1, env);
        Effect(Ok(p.0), p.1)
  }

  /** `obfuscate_multiple`, loop for loop. */
  method ObfuscateMultiple(inputFilepaths: seq<string>, outputDir: string, alphabetType: string,
                           mappingFile: string, customAlphabet: seq<string>, textFiles: seq<string>,
                           fs0: FileSystem, env: Env)
    returns (r: Result<map<string, string>>, fs: FileSystem)
    ensures Effect(r, fs) == ObfuscateMultipleSpec(inputFilepaths, outputDir, alphabetType, mappingFile,
                                                  customAlphabet, textFiles, fs0, env)
  {
    fs := fs0;
    var made := MakeDirs(fs, outputDir);
    if made.Err? {
      return Err(made.error), fs;
    }
    fs := made.value;
    var chosen := MultipleAlphabet(textFiles, customAlphabet, mappingFile, alphabetType, fs, env);
    if chosen.Err? {
      return Err(chosen.error), fs;
    }
    var alphabet := chosen.value;
    ghost var fs1 := fs;

    var results: map<string, string> := map[];
    for i := 0 to |inputFilepaths|
      invariant (results, fs) == Processed(inputFilepaths[..i], outputDir, alphabet, fs1, env)
    {
      assert inputFilepaths[..i + 1][..i] == inputFilepaths[..i];
      var inputFile := inputFilepaths[i];
      if inputFile !in fs {
        continue;
      }
      var outputFile := ObfuscatedPath(outputDir, inputFile);
      var w := WriteObfuscated(inputFile, outputFile, alphabet, fs, env);
      fs := w.fs;
      if w.result.Ok? {
        results := results[inputFile := outputFile];
      }
    }
    assert inputFilepaths[..|inputFilepaths|] == inputFilepaths;
    r := Ok(results);
  }

  /** `Processed` unfolded once. */
  lemma ProcessedUnfold(files: seq<string>, outputDir: string, alphabet: seq<string>, fs: FileSystem, env: Env)
    requires |files| > 0
    ensures var before := Processed(files[..|files| - 1], outputDir, alphabet, fs, env);
      var x := files[|files| - 1];
      var w := WriteObfuscated(x, ObfuscatedPath(outputDir, x), alphabet, before.1, env);
      Processed(files, outputDir, alphabet, fs, env)
      == if x !in before.1 then before
         else (if w.result.Ok? then before.0[x := ObfuscatedPath(outputDir, x)] else before.0, w.fs)
  {
  }

  /**
   * One more input: the inputs recorded afterwards are those recorded before,
   * plus this one exactly when it exists and its write succeeds; earlier records
   * keep their output names, and a missing input leaves the files alone.
   */
  lemma ProcessedStep(files: seq<string>, outputDir: string, alphabet: seq<string>, fs: FileSystem, env: Env)
    requires |files| > 0
    ensures var before := Processed(files[..|files| - 1], outputDir, alphabet, fs, env);
      var after := Processed(files, outputDir, alphabet, fs, env);
      var x := files[|files| - 1];
      var ok := x in before.1 && WriteObfuscated(x, ObfuscatedPath(outputDir, x), alphabet, before.1, env).result.Ok?;
      (forall y :: y in after.0 <==> y in before.0 || (y == x && ok))
      && (forall y :: y in before.0 && y != x ==> after.0[y] == before.0[y])
      && (ok ==> after.0[x] == ObfuscatedPath(outputDir, x))
      && (x !in before.1 ==> after.1 == before.1)
  {
    ProcessedUnfold(files, outputDir, alphabet, fs, env);
  }

  /** Only inputs are recorded, each under the `_obfuscated` name of its basename. */
  lemma {:induction false} ProcessedRecords(files: seq<string>, outputDir: string, alphabet: seq<string>,
                                            fs: FileSystem, env: Env)
    ensures var results := Processed(files, outputDir, alphabet, fs, env).0;
      forall x :: x in results ==> x in files && results[x] == ObfuscatedPath(outputDir, x)
  {
    if |files| > 0 {
      var init := files[..|files| - 1];
      ProcessedRecords(init, outputDir, alphabet, fs, env);
      ProcessedUnfold(files, outputDir, alphabet, fs, env);
      assert forall x :: x in init ==> x in files;
    }
  }

  /** Inputs that exist as readable files and outputs that are not directories. */
  predicate Writable(files: seq<string>, outputDir: string, fs: FileSystem) {
    forall k :: 0 <= k < |files| ==>
      files[k] in fs && fs[files[k]].File?
      && !(ObfuscatedPath(outputDir, files[k]) in fs && fs[ObfuscatedPath(outputDir, files[k])].Directory?)
  }

  /** The loop only writes regular files: a file stays a file and no directory appears. */
  lemma {:induction false} ProcessedWritesFiles(files: seq<string>, outputDir: string, alphabet: seq<string>,
                                                fs: FileSystem, env: Env, p: string)
    ensures var fs' := Processed(files, outputDir, alphabet, fs, env).1;
      (p in fs && fs[p].File? ==> p in fs' && fs'[p].File?)
      && (p in fs' && fs'[p].Directory? ==> p in fs && fs[p].Directory?)
  {
    if |files| > 0 {
      ProcessedWritesFiles(files[..|files| - 1], outputDir, alphabet, fs, env, p);
      ProcessedUnfold(files, outputDir, alphabet, fs, env);
    }
  }

  /** The read, encoding and write all succeed for a readable input and a writable output. */
  lemma WriteSucceeds(inputFile: string, outputFile: string, alphabet: seq<string>, fs: FileSystem, env: Env)
    requires inputFile in fs && fs[inputFile].File?
    requires !(outputFile in fs && fs[outputFile].Directory?)
    requires |alphabet| >= 10
    ensures WriteObfuscated(inputFile, outputFile, alphabet, fs, env).result.Ok?
  {
    GroupsLayout(fs[inputFile].content, alphabet);
  }

  /** An input written successfully is recorded under its output name. */
  lemma ProcessedRecordsLast(files: seq<string>, outputDir: string, alphabet: seq<string>, fs: FileSystem, env: Env)
    requires |files| > 0
    requires var before := Processed(files[..|files| - 1], outputDir, alphabet, fs, env);
      var x := files[|files| - 1];
      x in before.1 && WriteObfuscated(x, ObfuscatedPath(outputDir, x), alphabet, before.1, env).result.Ok?
    ensures Processed(files, outputDir, alphabet, fs, env).0
         == Processed(files[..|files| - 1], outputDir, alphabet, fs, env).0[files[|files| - 1] := ObfuscatedPath(outputDir, files[|files| - 1])]
  {
    ProcessedUnfold(files, outputDir, alphabet, fs, env);
  }

  /** One more readable input with a writable output extends the recorded inputs by it. */
  lemma ProcessedCompleteStep(files: seq<string>, outputDir: string, alphabet: seq<string>, fs: FileSystem, env: Env)
    requires |files| > 0 && |alphabet| >= 10
    requires Processed(files[..|files| - 1], outputDir, alphabet, fs, env).0.Keys == Elements(files[..|files| - 1])
    requires files[|files| - 1] in fs && fs[files[|files| - 1]].File?
    requires var out := ObfuscatedPath(outputDir, files[|files| - 1]); !(out in fs && fs[out].Directory?)
    ensures Processed(files, outputDir, alphabet, fs, env).0.Keys == Elements(files)
  {
    var init, last := files[..|files| - 1], files[|files| - 1];
    var outputFile := ObfuscatedPath(outputDir, last);
    ProcessedWritesFiles(init, outputDir, alphabet, fs, env, last);
    ProcessedWritesFiles(init, outputDir, alphabet, fs, env, outputFile);
    var before := Processed(init, outputDir, alphabet, fs, env);
    WriteSucceeds(last, outputFile, alphabet, before.1, env);
    ProcessedRecordsLast(files, outputDir, alphabet, fs, env);
    ElementsOfSnoc(files);
  }

  /**
   * When every input exists as a readable file, no output path is a directory
   * and the alphabet has ten digit symbols, every input is recorded.
   */
  lemma {:induction false} ProcessedComplete(files: seq<string>, outputDir: string, alphabet: seq<string>,
                                             fs: FileSystem, env: Env)
    requires Writable(files, outputDir, fs)
    requires |alphabet| >= 10
    ensures Processed(files, outputDir, alphabet, fs, env).0.Keys == Elements(files)
  {
    if |files| > 0 {
      var init := files[..|files| - 1];
      assert Writable(init, outputDir, fs) by {
        forall k | 0 <= k < |init| ensures init[k] == files[k] { }
      }
      ProcessedComplete(init, outputDir, alphabet, fs, env);
      ProcessedCompleteStep(files, outputDir, alphabet, fs, env);
    }
  }

  /** A batch with every input readable and every output writable records every input. */
  lemma BatchRecordsEveryInput(inputFilepaths: seq<string>, outputDir: string, alphabetType: string, fs: FileSystem, env: Env)
    requires alphabetType in CharacterSets
    requires !(outputDir in fs && !fs[outputDir].Directory?)
    requires Writable(inputFilepaths, outputDir, fs[outputDir := Directory])
    ensures var e := ObfuscateMultipleSpec(inputFilepaths, outputDir, alphabetType, "", [], [], fs, env);
      e.result.Ok? && e.result.value.Keys == Elements(inputFilepaths)
      && forall x :: x in e.result.value ==> e.result.value[x] == ObfuscatedPath(outputDir, x)
  {
    CharacterSetsValid(alphabetType);
    var fs1 := fs[outputDir := Directory];
    var alphabet := CharacterSets[alphabetType];
    ProcessedComplete(inputFilepaths, outputDir, alphabet, fs1, env);
    ProcessedRecords(inputFilepaths, outputDir, alphabet, fs1, env);
  }

  /** A missing input is skipped: it changes neither the results nor the files. */
  lemma MissingInputSkipped(files: seq<string>, missing: string, outputDir: string, alphabet: seq<string>,
                            fs: FileSystem, env: Env)
    requires missing !in Processed(files, outputDir, alphabet, fs, env).1
    ensures Processed(files + [missing], outputDir, alphabet, fs, env) == Processed(files, outputDir, alphabet, fs, env)
  {
    assert (files + [missing])[..|files|] == files;
  }

  /** An input whose read, encoding or write fails is left out of the results and the loop goes on. */
  lemma FailedInputNotRecorded(files: seq<string>, bad: string, outputDir: string, alphabet: seq<string>,
                               fs: FileSystem, env: Env)
    requires var before := Processed(files, outputDir, alphabet, fs, env);
      bad in before.1 && bad !in before.0
      && WriteObfuscated(bad, ObfuscatedPath(outputDir, bad), alphabet, before.1, env).result.Err?
    ensures Processed(files + [bad], outputDir, alphabet, fs, env) == Processed(files, outputDir, alphabet, fs, env)
    ensures bad !in Processed(files + [bad], outputDir, alphabet, fs, env).0
  {
    assert (files + [bad])[..|files|] == files;
  }
}
