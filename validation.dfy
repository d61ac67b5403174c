/**
 * Kannadafy/utils/validation.py: the alphabet check (the same code, with its own
 * docstring, also appears in Kannadafy/core.py) and the checks on input and
 * word-list paths.
 */
module Validation {
  import opened Runtime
  import opened Seqs
  import opened Text

  /** The least number of symbols an alphabet must have: one per decimal digit. */
  const MinSymbols: nat := 10

  const TooFewCharacters := "Mapping must contain at least 10 unique characters"
  const DuplicateCharacters := "Mapping contains duplicate characters"

  /** What every alphabet the validators accept satisfies. */
  predicate ValidAlphabet<T(==)>(s: seq<T>) {
    |s| >= MinSymbols && Distinct(s)
  }

  /**
   * `validate_mapping`: the size check comes first, then the duplicate check
   * (`len(characters) != len(set(characters))`); the list itself is a value and
   * cannot be changed.
   */
  function ValidateMapping(characters: seq<string>): (r: Result<bool>)
    ensures r.Ok? <==> ValidAlphabet(characters)
    ensures r.Ok? ==> r.value
    ensures |characters| < MinSymbols ==> r == Err(ValueError(TooFewCharacters))
    ensures |characters| >= MinSymbols && !Distinct(characters) ==> r == Err(ValueError(DuplicateCharacters))
  {
    CardinalityOfElements(characters);
    if |characters| < MinSymbols then Err(ValueError(TooFewCharacters))
    else if |Elements(characters)| != |characters| then Err(ValueError(DuplicateCharacters))
    else Ok(true)
  }

  /**
   * `validate_input_file`: an empty path is refused before the file system is
   * consulted, then a missing path, then one that is not a regular file.
   */
  function ValidateInputFile(filePath: string, fileType: string, fs: FileSystem): (r: Result<bool>)
    ensures r.Ok? <==> filePath != "" && IsFile(fs, filePath)
    ensures r.Ok? ==> r.value
    ensures filePath == "" ==> r == Err(ValueError("No " + fileType + " file path provided"))
    ensures filePath != "" && filePath !in fs ==>
      r == Err(ValueError(Capitalize(fileType) + " file '" + filePath + "' not found"))
  {
    if filePath == "" then Err(ValueError("No " + fileType + " file path provided"))
    else if filePath !in fs then Err(ValueError(Capitalize(fileType) + " file '" + filePath + "' not found"))
    else if fs[filePath].Directory? then Err(ValueError(Capitalize(fileType) + " path '" + filePath + "' is not a file"))
    else Ok(true)
  }

  const NoWordlistFiles := "No wordlist files provided for text-based operation"
  const NoValidWordlistFiles := "No valid wordlist files found"

  /** The error `validate_wordlist_files` raises for a path that is not a usable file. */
  function WordlistError(path: string, fs: FileSystem): Error {
    if path !in fs then ValueError("Wordlist file '" + path + "' not found")
    else ValueError("Wordlist path '" + path + "' is not a file")
  }

  /**
   * `validate_wordlist_files`: refuses an empty list, then stops at the first
   * path that is missing or not a regular file. Its last check ("No valid
   * wordlist files found") can never fire: a non-empty list that gets past the
   * loop has had every path appended.
   */
  method ValidateWordlistFiles(wordlistFiles: seq<string>, fs: FileSystem) returns (r: Result<bool>)
    ensures r.Ok? <==> |wordlistFiles| > 0 && forall i :: 0 <= i < |wordlistFiles| ==> IsFile(fs, wordlistFiles[i])
    ensures r.Ok? ==> r.value
    ensures |wordlistFiles| == 0 ==> r == Err(ValueError(NoWordlistFiles))
    ensures r.Err? && |wordlistFiles| > 0 ==>
      exists k :: 0 <= k < |wordlistFiles| && !IsFile(fs, wordlistFiles[k])
        && (forall i :: 0 <= i < k ==> IsFile(fs, wordlistFiles[i]))
        && r.error == WordlistError(wordlistFiles[k], fs)
    ensures r != Err(ValueError(NoValidWordlistFiles))
  {
    if |wordlistFiles| == 0 {
      return Err(ValueError(NoWordlistFiles));
    }
    var validFiles: seq<string> := [];
    var i := 0;
    while i < |wordlistFiles|
      invariant 0 <= i <= |wordlistFiles|
      invariant validFiles == wordlistFiles[..i]
      invariant forall j :: 0 <= j < i ==> IsFile(fs, wordlistFiles[j])
    {
      var path := wordlistFiles[i];
      if path !in fs {
        r := Err(ValueError("Wordlist file '" + path + "' not found"));
        assert r.error.message[0] != NoValidWordlistFiles[0];
        return;
      }
      if fs[path].Directory? {
        r := Err(ValueError("Wordlist path '" + path + "' is not a file"));
        assert r.error.message[0] != NoValidWordlistFiles[0];
        return;
      }
      validFiles := validFiles + [path];
      i := i + 1;
    }
    r := if |validFiles| == 0 then Err(ValueError(NoValidWordlistFiles)) else Ok(true);
  }
}
