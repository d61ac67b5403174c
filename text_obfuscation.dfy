/**
 * Kannadafy/utils/text_obfuscation.py: a word alphabet harvested from text
 * files, and its validator.
 */
module TextObfuscation {
  import opened Runtime
  import opened Seqs
  import opened Text
  import opened Validation

  // ---------------------------------------------------------------------------
  // What one file contributes

  /**
   * The tokens one stripped comma-separated part contributes: a part holding a
   * space is replaced by its whitespace-separated words (`split()` never
   * yields an empty word, so the `if w` filter keeps them all); any other part,
   * even an empty one, is kept whole.
   */
  function PartTokens(part: string): seq<string> {
    if ' ' in part then Words(part) else [part]
  }

  function TokensOfParts(parts: seq<string>): seq<string> {
    if |parts| == 0 then []
    else TokensOfParts(parts[..|parts| - 1]) + PartTokens(parts[|parts| - 1])
  }

  /** `[p.strip() for p in content.replace("\n", " ").split(",")]`. */
  function CommaParts(content: string): seq<string> {
    StripAll(SplitOn(ReplaceChar(content, '\n', ' '), ","))
  }

  /** The tokens of one file: comma mode when the text holds a comma, line mode otherwise. */
  function FileTokens(content: string): seq<string> {
    if ',' in content then TokensOfParts(CommaParts(content)) else StrippedLines(content)
  }

  /**
   * What one path contributes: nothing when it does not exist, and nothing
   * when reading it fails (a directory, an undecodable file), since that
   * error is reported and the file skipped.
   */
  function PathTokens(path: string, fs: FileSystem): seq<string> {
    if path in fs && fs[path].File? then FileTokens(fs[path].content) else []
  }

  /** All tokens, in file order. */
  function CorpusTokens(files: seq<string>, fs: FileSystem): seq<string> {
    if |files| == 0 then []
    else CorpusTokens(files[..|files| - 1], fs) + PathTokens(files[|files| - 1], fs)
  }

  /** The list `unique_words` builds: each token kept at its first occurrence. */
  function Dedup(ws: seq<string>): seq<string> {
    if |ws| == 0 then []
    else
      var d := Dedup(ws[..|ws| - 1]);
      if ws[|ws| - 1] in d then d else d + [ws[|ws| - 1]]
  }

  /** `get_text_file_words(text_files)`: `None` when fewer than ten distinct non-empty tokens remain. */
  function TextFileWords(files: seq<string>, fs: FileSystem): Option<seq<string>> {
    var unique := NonEmpty(Dedup(CorpusTokens(files, fs)));
    if |unique| < MinSymbols then None else Some(unique)
  }

  /** The body of the loop over the files of `get_text_file_words`: the tokens of one file's text. */
  method ExtractTokens(content: string) returns (words: seq<string>)
    ensures words == FileTokens(content)
  {
    words := [];
    if ',' in content {
      var parts := CommaParts(content);
      for j := 0 to |parts|
        invariant words == TokensOfParts(parts[..j])
      {
        assert parts[..j + 1][..j] == parts[..j];
        var part := parts[j];
        if ' ' in part {
          words := words + Words(part);
        } else {
          words := words + [part];
        }
      }
      assert parts[..|parts|] == parts;
    } else {
      words := StrippedLines(content);
    }
  }

  lemma CorpusStep(files: seq<string>, i: nat, fs: FileSystem)
    requires i < |files|
    ensures CorpusTokens(files[..i + 1], fs) == CorpusTokens(files[..i], fs) + PathTokens(files[i], fs)
  {
    assert files[..i + 1][..i] == files[..i];
  }

  /** The first loop of `get_text_file_words`: the tokens of every readable file, in order. */
  method CollectTokens(textFiles: seq<string>, fs: FileSystem) returns (words: seq<string>)
    ensures words == CorpusTokens(textFiles, fs)
  {
    words := [];
    for i := 0 to |textFiles|
      invariant words == CorpusTokens(textFiles[..i], fs)
    {
      CorpusStep(textFiles, i, fs);
      var path := textFiles[i];
      if path in fs && fs[path].File? {
        var tokens := ExtractTokens(fs[path].content);
        words := words + tokens;
      }
    }
    assert textFiles[..|textFiles|] == textFiles;
  }

  /** The second loop of `get_text_file_words`: each token once, where it first occurs. */
  method UniqueTokens(words: seq<string>) returns (unique: seq<string>)
    ensures unique == Dedup(words)
  {
    unique := [];
    for k := 0 to |words|
      invariant unique == Dedup(words[..k])
    {
      assert words[..k + 1][..k] == words[..k];
      if words[k] !in unique {
        unique := unique + [words[k]];
      }
    }
    assert words[..|words|] == words;
  }

  /** `get_text_file_words`. */
  method GetTextFileWords(textFiles: seq<string>, fs: FileSystem) returns (r: Option<seq<string>>)
    ensures r == TextFileWords(textFiles, fs)
  {
    var words := CollectTokens(textFiles, fs);
    var unique := UniqueTokens(words);
    unique := NonEmpty(unique);
    if |unique| < MinSymbols {
      return None;
    }
    return Some(unique);
  }

  // ---------------------------------------------------------------------------
  // Properties

  /** `x` and `y` both occur in `ws`, and `x` first occurs earlier. */
  predicate SeenBefore(ws: seq<string>, x: string, y: string) {
    x in ws && y in ws && IndexOf(ws, x) < IndexOf(ws, y)
  }

  /** Every element of `u` occurs in `ws`, and `u` lists them in the order they first occur there. */
  predicate FirstSeenOrder(u: seq<string>, ws: seq<string>) {
    forall i, j :: 0 <= i < j < |u| ==> SeenBefore(ws, u[i], u[j])
  }

  /** Removing duplicates keeps every token once, at its first occurrence. */
  lemma {:induction false} DedupSpec(ws: seq<string>)
    ensures Distinct(Dedup(ws))
    ensures forall x :: x in Dedup(ws) <==> x in ws
    ensures FirstSeenOrder(Dedup(ws), ws)
  {
    if |ws| > 0 {
      var init, last := ws[..|ws| - 1], ws[|ws| - 1];
      assert ws == init + [last];
      DedupSpec(init);
      var d := Dedup(init);
      assert FirstSeenOrder(d, ws) by {
        forall i, j | 0 <= i < j < |d| ensures SeenBefore(ws, d[i], d[j]) {
          IndexOfSnoc(init, last, d[i]);
          IndexOfSnoc(init, last, d[j]);
        }
      }
      if last !in d {
        IndexOfAppended(init, last);
        var e := d + [last];
        forall i, j | 0 <= i < j < |e| ensures e[i] != e[j] {
          if j < |d| {
            assert e[i] == d[i] && e[j] == d[j];
          } else {
            assert e[i] == d[i];
          }
        }
        forall i, j | 0 <= i < j < |e|
          ensures SeenBefore(ws, e[i], e[j])
        {
          assert e[i] == d[i];
          if j < |d| {
            assert e[j] == d[j];
          } else {
            IndexOfSnoc(init, last, d[i]);
          }
        }
      }
    }
  }

  /** Dropping the empty strings keeps everything else. */
  lemma {:induction false} NonEmptyMembers(u: seq<string>)
    ensures forall x :: x in NonEmpty(u) <==> x in u && x != []
  {
    if |u| > 0 {
      NonEmptyMembers(u[1..]);
      assert u == [u[0]] + u[1..];
    }
  }

  /** Dropping the empty strings keeps the list duplicate-free. */
  lemma {:induction false} NonEmptyDistinct(u: seq<string>)
    requires Distinct(u)
    ensures Distinct(NonEmpty(u))
  {
    if |u| > 0 {
      var a, rest := u[0], u[1..];
      assert Distinct(rest) by {
        assert forall i, j :: 0 <= i < j < |rest| ==> rest[i] == u[i + 1] && rest[j] == u[j + 1];
      }
      NonEmptyDistinct(rest);
      var n := NonEmpty(rest);
      if a != [] {
        var e := [a] + n;
        assert a !in rest;
        forall i, j | 0 <= i < j < |e| ensures e[i] != e[j] {
          assert e[j] == n[j - 1];
          if i > 0 {
            assert e[i] == n[i - 1];
          }
        }
      }
    }
  }

  /** The order of first occurrence holds of a list's tail, and its head comes before the rest. */
  lemma FirstSeenOrderTail(u: seq<string>, ws: seq<string>)
    requires |u| > 0 && FirstSeenOrder(u, ws)
    ensures FirstSeenOrder(u[1..], ws)
    ensures forall x :: x in u[1..] ==> SeenBefore(ws, u[0], x)
  {
    var rest := u[1..];
    assert forall i :: 0 <= i < |rest| ==> rest[i] == u[i + 1];
    forall x | x in rest ensures SeenBefore(ws, u[0], x) {
      var p :| 0 <= p < |rest| && rest[p] == x;
      assert u[p + 1] == x;
    }
  }

  /** A head first seen before everything in an ordered tail gives an ordered list. */
  lemma FirstSeenOrderCons(a: string, n: seq<string>, ws: seq<string>)
    requires FirstSeenOrder(n, ws)
    requires forall m :: 0 <= m < |n| ==> SeenBefore(ws, a, n[m])
    ensures FirstSeenOrder([a] + n, ws)
  {
    var e := [a] + n;
    forall i, j | 0 <= i < j < |e|
      ensures SeenBefore(ws, e[i], e[j])
    {
      assert e[j] == n[j - 1];
      if i == 0 {
        assert e[i] == a;
      } else {
        assert e[i] == n[i - 1];
      }
    }
  }

  /** Dropping the empty strings keeps the order of first occurrence. */
  lemma {:induction false} NonEmptyOrder(u: seq<string>, ws: seq<string>)
    requires FirstSeenOrder(u, ws)
    ensures FirstSeenOrder(NonEmpty(u), ws)
  {
    if |u| > 0 {
      FirstSeenOrderTail(u, ws);
      NonEmptyOrder(u[1..], ws);
      if u[0] != [] {
        var n := NonEmpty(u[1..]);
        forall m | 0 <= m < |n| ensures SeenBefore(ws, u[0], n[m]) {
          assert n[m] in u[1..];
        }
        FirstSeenOrderCons(u[0], n, ws);
      }
    }
  }

  /** A duplicate-free list is as long as the set of its elements. */
  lemma DistinctSize(s: seq<string>, elements: set<string>)
    requires Distinct(s) && forall x :: x in s <==> x in elements
    ensures |s| == |elements|
  {
    CardinalityOfElements(s);
    assert Elements(s) == elements;
  }

  /**
   * What `get_text_file_words` promises: `None` exactly when the files hold
   * fewer than ten distinct non-empty tokens; otherwise every such token once,
   * nothing else, in the order of first occurrence.
   */
  lemma TextFileWordsSpec(files: seq<string>, fs: FileSystem)
    ensures var toks := CorpusTokens(files, fs);
      TextFileWords(files, fs).None? <==> |Elements(toks) - {""}| < MinSymbols
    ensures var toks := CorpusTokens(files, fs); var r := TextFileWords(files, fs);
      r.Some? ==>
        ValidAlphabet(r.value)
        && (forall w :: w in r.value <==> w in toks && w != "")
        && FirstSeenOrder(r.value, toks)
  {
    var toks := CorpusTokens(files, fs);
    DedupSpec(toks);
    NonEmptyMembers(Dedup(toks));
    NonEmptyDistinct(Dedup(toks));
    NonEmptyOrder(Dedup(toks), toks);
    var unique := NonEmpty(Dedup(toks));
    DistinctSize(unique, Elements(toks) - {""});
  }

  /** Tokens come file by file: the corpus of two lists of files is the corpus of each, in order. */
  lemma {:induction false} CorpusAppend(a: seq<string>, b: seq<string>, fs: FileSystem)
    ensures CorpusTokens(a + b, fs) == CorpusTokens(a, fs) + CorpusTokens(b, fs)
  {
    if |b| == 0 {
      assert a + b == a;
    } else {
      var init, last := b[..|b| - 1], b[|b| - 1];
      var z := PathTokens(last, fs);
      assert CorpusTokens(a + b, fs) == CorpusTokens(a + init, fs) + z by {
        var ab := a + b;
        assert ab[..|ab| - 1] == a + init && ab[|ab| - 1] == last;
      }
      CorpusAppend(a, init, fs);
      var x, y := CorpusTokens(a, fs), CorpusTokens(init, fs);
      assert CorpusTokens(b, fs) == y + z;
      assert (x + y) + z == x + (y + z);
    }
  }

  /** A missing or unreadable file changes nothing. */
  lemma SkippedFile(a: seq<string>, path: string, b: seq<string>, fs: FileSystem)
    requires !(path in fs && fs[path].File?)
    ensures CorpusTokens(a + [path] + b, fs) == CorpusTokens(a + b, fs)
  {
    CorpusAppend(a + [path], b, fs);
    assert CorpusTokens(a + [path], fs) == CorpusTokens(a, fs) by {
      CorpusAppend(a, [path], fs);
      assert CorpusTokens([path], fs) == CorpusTokens([], fs) + PathTokens(path, fs);
    }
    CorpusAppend(a, b, fs);
  }

  /** Line mode: a comma-free file of stripped lines yields exactly those lines, inner spaces kept. */
  lemma LineModeFile(lines: seq<string>)
    requires BareLines(lines) && forall k :: 0 <= k < |lines| ==> ',' !in lines[k]
    ensures FileTokens(Join("\n", lines)) == lines
  {
    JoinAvoids("\n", lines, ',');
    StrippedLinesOfJoin(lines);
  }

  lemma {:induction false} TokensOfPlainParts(parts: seq<string>)
    requires forall k :: 0 <= k < |parts| ==> ' ' !in parts[k]
    ensures TokensOfParts(parts) == parts
  {
    if |parts| > 0 {
      var init := parts[..|parts| - 1];
      TokensOfPlainParts(init);
      assert init + [parts[|parts| - 1]] == parts;
    }
  }

  lemma PlainWord(w: string)
    requires w != [] && SpaceFree(w)
    ensures '\n' !in w && ' ' !in w && Stripped(w)
  {
    assert !IsSpace(w[0]) && !IsSpace(w[|w| - 1]);
  }

  /** Comma mode: words separated by bare commas come out one by one, in order. */
  lemma CommaModeFile(ws: seq<string>)
    requires |ws| >= 2
    requires forall k :: 0 <= k < |ws| ==> ws[k] != [] && SpaceFree(ws[k]) && ',' !in ws[k]
    ensures FileTokens(Join(",", ws)) == ws
  {
    var content := Join(",", ws);
    assert content == ws[0] + "," + Join(",", ws[1..]);
    assert content[|ws[0]|] == ',';
    forall k | 0 <= k < |ws| ensures '\n' !in ws[k] && ' ' !in ws[k] && Stripped(ws[k]) {
      PlainWord(ws[k]);
    }
    JoinAvoids(",", ws, '\n');
    ReplaceAbsent(content, '\n', ' ');
    SplitJoinChar(ws, ',');
    StripAllStripped(ws);
    assert CommaParts(content) == ws;
    TokensOfPlainParts(ws);
  }

  /** Comma mode with the usual `", "` separators: each part is stripped back to its word. */
  lemma CommaSpaceModeFile(ws: seq<string>)
    requires |ws| >= 2
    requires forall k :: 0 <= k < |ws| ==> ws[k] != [] && SpaceFree(ws[k]) && ',' !in ws[k]
    ensures FileTokens(Join(", ", ws)) == ws
  {
    var content := Join(", ", ws);
    var parts := [ws[0]] + Prefixed(" ", ws[1..]);
    CommaSpaceParts(ws);
    JoinCons(", ", ws[0], ws[1..]);
    assert content[|ws[0]|] == ',';
    forall k | 0 <= k < |ws| ensures '\n' !in ws[k] && ' ' !in ws[k] && Stripped(ws[k]) {
      PlainWord(ws[k]);
    }
    PaddedParts(ws);
    StripPaddedAll(ws);
    JoinAvoids(",", parts, '\n');
    ReplaceAbsent(content, '\n', ' ');
    SplitJoinChar(parts, ',');
    TokensOfPlainParts(ws);
  }

  lemma CommaSpaceParts(ws: seq<string>)
    requires |ws| > 0
    ensures Join(", ", ws) == Join(",", [ws[0]] + Prefixed(" ", ws[1..]))
  {
    assert ws == [ws[0]] + ws[1..];
    assert ", " == "," + " ";
    JoinLongerSep(",", " ", ws[0], ws[1..]);
  }

  /** The parts between the commas of `", "`-separated words are free of commas and line breaks. */
  lemma PaddedParts(ws: seq<string>)
    requires |ws| > 0
    requires forall k :: 0 <= k < |ws| ==> '\n' !in ws[k] && ',' !in ws[k]
    ensures var parts := [ws[0]] + Prefixed(" ", ws[1..]);
      forall k :: 0 <= k < |parts| ==> '\n' !in parts[k] && ',' !in parts[k]
  {
    var rest := Prefixed(" ", ws[1..]);
    forall k | 0 <= k < |rest| ensures '\n' !in rest[k] && ',' !in rest[k] {
      assert rest[k] == " " + ws[k + 1];
    }
  }

  // ---------------------------------------------------------------------------
  // validate_word_mapping

  const TooFewWords := "Word mapping must contain at least 10 unique entries"
  const DuplicateWords := "Word mapping contains duplicate entries"

  /** `validate_word_mapping`: the size check first, then the duplicate check. */
  function ValidateWordMapping(words: seq<string>): (r: Result<bool>)
    ensures r.Ok? <==> ValidAlphabet(words)
    ensures r.Ok? ==> r.value
    ensures |words| < MinSymbols ==> r == Err(ValueError(TooFewWords))
    ensures |words| >= MinSymbols && !Distinct(words) ==> r == Err(ValueError(DuplicateWords))
  {
    CardinalityOfElements(words);
    if |words| < MinSymbols then Err(ValueError(TooFewWords))
    else if |Elements(words)| != |words| then Err(ValueError(DuplicateWords))
    else Ok(true)
  }

  /** A harvested word list passes both validators. */
  lemma HarvestedWordsValid(files: seq<string>, fs: FileSystem)
    requires TextFileWords(files, fs).Some?
    ensures ValidateWordMapping(TextFileWords(files, fs).value) == Ok(true)
    ensures ValidateMapping(TextFileWords(files, fs).value) == Ok(true)
  {
    TextFileWordsSpec(files, fs);
  }
}
