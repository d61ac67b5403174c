/** The Python `str` operations the core relies on, on `seq<char>`. */
module Text {
  import opened Seqs

  /** `c.isspace()`: the characters `strip()` and `split()` treat as whitespace. */
  predicate IsSpace(c: char) {
    var n := c as int;
    n == 0x20 || 0x09 <= n <= 0x0D || 0x1C <= n <= 0x1F || n == 0x85 || n == 0xA0
    || n == 0x1680 || 0x2000 <= n <= 0x200A || n == 0x2028 || n == 0x2029
    || n == 0x202F || n == 0x205F || n == 0x3000
  }

  /** No whitespace character anywhere in `s`. */
  predicate SpaceFree(s: string) {
    forall i :: 0 <= i < |s| ==> !IsSpace(s[i])
  }

  function LStrip(s: string): (r: string)
    ensures r == [] || !IsSpace(r[0])
    ensures |r| <= |s| && r == s[|s| - |r|..]
  {
    if |s| > 0 && IsSpace(s[0]) then LStrip(s[1..]) else s
  }

  function RStrip(s: string): (r: string)
    ensures r == [] || !IsSpace(r[|r| - 1])
    ensures |r| <= |s| && r == s[..|r|]
  {
    if |s| > 0 && IsSpace(s[|s| - 1]) then RStrip(s[..|s| - 1]) else s
  }

  /** `s.strip()`. */
  function Strip(s: string): (r: string)
    ensures r == [] || (!IsSpace(r[0]) && !IsSpace(r[|r| - 1]))
  {
    RStrip(LStrip(s))
  }

  /** `s.rstrip(c)` for a single character `c`. */
  function TrimTrailing(s: string, c: char): (r: string)
    ensures r == [] || r[|r| - 1] != c
    ensures |r| <= |s| && r == s[..|r|]
    ensures forall i :: |r| <= i < |s| ==> s[i] == c
  {
    if |s| > 0 && s[|s| - 1] == c then TrimTrailing(s[..|s| - 1], c) else s
  }

  /** `s.replace(a, b)` for single characters. */
  function ReplaceChar(s: string, a: char, b: char): (r: string) {
    seq(|s|, i requires 0 <= i < |s| => if s[i] == a then b else s[i])
  }

  /** `s.split(sep)`: the pieces between the leftmost non-overlapping occurrences of `sep`. */
  function SplitOn(s: string, sep: string): (parts: seq<string>)
    requires |sep| > 0
    ensures |parts| >= 1
    decreases |s|
  {
    if sep <= s then [""] + SplitOn(s[|sep|..], sep)
    else if |s| == 0 then [""]
    else
      var rest := SplitOn(s[1..], sep);
      [[s[0]] + rest[0]] + rest[1..]
  }

  /** The longest prefix of `s` without whitespace. */
  function Word(s: string): (w: string)
    ensures |w| <= |s| && w == s[..|w|]
    ensures |s| > 0 && !IsSpace(s[0]) ==> |w| > 0
  {
    if |s| == 0 || IsSpace(s[0]) then [] else [s[0]] + Word(s[1..])
  }

  /** `s.split()`: the maximal runs of non-whitespace characters, in order. */
  function Words(s: string): (ws: seq<string>)
    decreases |s|
  {
    if |s| == 0 then []
    else if IsSpace(s[0]) then Words(s[1..])
    else var w := Word(s); [w] + Words(s[|w|..])
  }

  /** `sep.join(parts)`. */
  function Join(sep: string, parts: seq<string>): string {
    if |parts| == 0 then ""
    else if |parts| == 1 then parts[0]
    else parts[0] + sep + Join(sep, parts[1..])
  }

  lemma JoinCons(sep: string, x: string, rest: seq<string>)
    requires |rest| > 0
    ensures Join(sep, [x] + rest) == x + sep + Join(sep, rest)
  {
    assert ([x] + rest)[1..] == rest;
  }

  function StripAll(ss: seq<string>): (r: seq<string>) {
    seq(|ss|, i requires 0 <= i < |ss| => Strip(ss[i]))
  }

  /** `[s for s in ss if s]`. */
  function NonEmpty(ss: seq<string>): (r: seq<string>)
    ensures forall i :: 0 <= i < |r| ==> r[i] != []
    ensures forall x :: x in r ==> x in ss
  {
    if |ss| == 0 then []
    else if ss[0] == [] then NonEmpty(ss[1..])
    else [ss[0]] + NonEmpty(ss[1..])
  }

  /** `[line.strip() for line in lines if line.strip()]` over the lines of `content`. */
  function StrippedLines(content: string): seq<string> {
    NonEmpty(StripAll(SplitOn(content, "\n")))
  }

  // ASCII case mapping; other characters are left as they are.

  predicate IsUpper(c: char) { 'A' <= c <= 'Z' }
  predicate IsLower(c: char) { 'a' <= c <= 'z' }

  function ToLower(c: char): char { if IsUpper(c) then (c as int + 32) as char else c }
  function ToUpper(c: char): char { if IsLower(c) then (c as int - 32) as char else c }

  /** `s.lower()`. */
  function Lower(s: string): string {
    seq(|s|, i requires 0 <= i < |s| => ToLower(s[i]))
  }

  /** `s.capitalize()`: first character upper case, the rest lower case. */
  function Capitalize(s: string): string {
    if |s| == 0 then "" else [ToUpper(s[0])] + Lower(s[1..])
  }

  /** `s.title()`; `afterCased` is whether the previous character was a letter. */
  function TitleFrom(s: string, afterCased: bool): string {
    if |s| == 0 then ""
    else
      var c := s[0];
      var cased := IsUpper(c) || IsLower(c);
      [if !cased then c else if afterCased then ToLower(c) else ToUpper(c)] + TitleFrom(s[1..], cased)
  }

  function Title(s: string): string { TitleFrom(s, false) }

  // ---------------------------------------------------------------------------
  // Splitting what was joined

  predicate NoSepAt(s: string, sep: string, i: nat)
    requires i <= |s|
  {
    !(sep <= s[i..])
  }

  /** A text in which `sep` occurs nowhere splits into itself. */
  lemma {:induction false} SplitWithoutSep(p: string, sep: string)
    requires |sep| > 0
    requires forall i :: 0 <= i <= |p| ==> NoSepAt(p, sep, i)
    ensures SplitOn(p, sep) == [p]
  {
    assert NoSepAt(p, sep, 0);
    assert p[0..] == p;
    if |p| > 0 {
      forall i | 0 <= i <= |p[1..]| ensures NoSepAt(p[1..], sep, i) {
        assert p[1..][i..] == p[i + 1..];
        assert NoSepAt(p, sep, i + 1);
      }
      SplitWithoutSep(p[1..], sep);
      assert [p[0]] + p[1..] == p;
    }
  }

  /** The first piece of `p + sep + rest` is `p` when no occurrence of `sep` starts inside `p`. */
  lemma {:induction false} SplitAfterPiece(p: string, sep: string, rest: string)
    requires |sep| > 0
    requires forall i :: 0 <= i < |p| ==> NoSepAt(p + sep + rest, sep, i)
    ensures SplitOn(p + sep + rest, sep) == [p] + SplitOn(rest, sep)
  {
    var s := p + sep + rest;
    if |p| == 0 {
      assert s == sep + rest;
      assert sep <= s;
      assert s[|sep|..] == rest;
    } else {
      assert NoSepAt(s, sep, 0);
      assert s[0..] == s;
      assert s[1..] == p[1..] + sep + rest;
      forall i | 0 <= i < |p[1..]| ensures NoSepAt(p[1..] + sep + rest, sep, i) {
        assert (p[1..] + sep + rest)[i..] == s[i + 1..];
        assert NoSepAt(s, sep, i + 1);
      }
      SplitAfterPiece(p[1..], sep, rest);
      assert [p[0]] + p[1..] == p;
    }
  }

  /** Whether `p` may stand before `sep` in a joined text without its end being mistaken for `sep`. */
  predicate CleanBefore(p: string, sep: string) {
    forall i :: 0 <= i < |p| ==> NoSepAt(p + sep, sep, i)
  }

  /** `sep` occurs nowhere in `p`. */
  predicate SepFree(p: string, sep: string) {
    forall i :: 0 <= i <= |p| ==> NoSepAt(p, sep, i)
  }

  lemma CleanBeforeExtends(p: string, sep: string, rest: string)
    requires CleanBefore(p, sep)
    ensures forall i :: 0 <= i < |p| ==> NoSepAt(p + sep + rest, sep, i)
  {
    forall i | 0 <= i < |p| ensures NoSepAt(p + sep + rest, sep, i) {
      assert NoSepAt(p + sep, sep, i);
      var s := p + sep + rest;
      assert s[..|p| + |sep|] == p + sep;
      assert s[i..][..|sep|] == (p + sep)[i..][..|sep|];
    }
  }

  /** `sep.join(parts).split(sep) == parts` when no piece contains `sep` and none ends in a way that overlaps it. */
  lemma {:induction false} SplitJoin(parts: seq<string>, sep: string)
    requires |sep| > 0 && |parts| > 0
    requires forall k :: 0 <= k < |parts| ==> SepFree(parts[k], sep)
    requires forall k :: 0 <= k < |parts| - 1 ==> CleanBefore(parts[k], sep)
    ensures SplitOn(Join(sep, parts), sep) == parts
  {
    if |parts| == 1 {
      SplitWithoutSep(parts[0], sep);
    } else {
      var rest := Join(sep, parts[1..]);
      CleanBeforeExtends(parts[0], sep, rest);
      SplitAfterPiece(parts[0], sep, rest);
      SplitJoin(parts[1..], sep);
      assert [parts[0]] + parts[1..] == parts;
    }
  }

  lemma {:induction false} WordOfSpaceFree(w: string, rest: string)
    requires SpaceFree(w)
    requires rest == [] || IsSpace(rest[0])
    ensures Word(w + rest) == w
  {
    if |w| == 0 {
      assert w + rest == rest;
    } else {
      assert (w + rest)[1..] == w[1..] + rest;
      WordOfSpaceFree(w[1..], rest);
      assert [w[0]] + w[1..] == w;
    }
  }

  /** `" ".join(ws).split() == ws` when every word is non-empty and has no whitespace. */
  lemma {:induction false} WordsOfJoin(ws: seq<string>)
    requires forall k :: 0 <= k < |ws| ==> ws[k] != [] && SpaceFree(ws[k])
    ensures Words(Join(" ", ws)) == ws
  {
    if |ws| == 1 {
      WordOfSpaceFree(ws[0], []);
      assert ws[0] + [] == ws[0];
      assert ws[0][|ws[0]|..] == [];
    } else if |ws| > 1 {
      var rest := Join(" ", ws[1..]);
      var s := ws[0] + " " + rest;
      assert s == ws[0] + (" " + rest);
      WordOfSpaceFree(ws[0], " " + rest);
      assert s[|ws[0]|..] == " " + rest;
      assert (" " + rest)[1..] == rest;
      WordsOfJoin(ws[1..]);
      assert [ws[0]] + ws[1..] == ws;
    }
  }

  /** A character that occurs neither in `sep` nor in any piece does not occur in the joined text. */
  lemma {:induction false} JoinAvoids(sep: string, parts: seq<string>, c: char)
    requires c !in sep
    requires forall k :: 0 <= k < |parts| ==> c !in parts[k]
    ensures c !in Join(sep, parts)
  {
    if |parts| > 1 {
      JoinAvoids(sep, parts[1..], c);
    }
  }

  /** The joined text ends with the last character of the last piece. */
  lemma {:induction false} JoinLast(sep: string, parts: seq<string>)
    requires |parts| > 0 && |parts[|parts| - 1]| > 0
    ensures var j := Join(sep, parts); |j| > 0 && j[|j| - 1] == parts[|parts| - 1][|parts[|parts| - 1]| - 1]
  {
    if |parts| > 1 {
      JoinLast(sep, parts[1..]);
    }
  }

  /** A non-empty text with no whitespace at either end: what `strip()` leaves unchanged. */
  predicate Stripped(s: string) {
    s != [] && !IsSpace(s[0]) && !IsSpace(s[|s| - 1])
  }

  lemma StripStripped(s: string)
    requires Stripped(s)
    ensures Strip(s) == s
  {
    assert LStrip(s) == s;
  }

  lemma StripAllStripped(ss: seq<string>)
    requires forall k :: 0 <= k < |ss| ==> Stripped(ss[k])
    ensures StripAll(ss) == ss
  {
    forall k | 0 <= k < |ss| ensures StripAll(ss)[k] == ss[k] {
      StripStripped(ss[k]);
    }
  }

  lemma {:induction false} NonEmptyOfNonEmpty(ss: seq<string>)
    requires forall k :: 0 <= k < |ss| ==> ss[k] != []
    ensures NonEmpty(ss) == ss
  {
    if |ss| > 0 {
      NonEmptyOfNonEmpty(ss[1..]);
      assert [ss[0]] + ss[1..] == ss;
    }
  }

  /** A one-character separator that does not occur in `p` neither occurs in nor runs into it. */
  lemma SingleCharSep(p: string, c: char)
    requires c !in p
    ensures SepFree(p, [c]) && CleanBefore(p, [c])
  {
    forall i | 0 <= i <= |p| ensures NoSepAt(p, [c], i) {
      if i < |p| {
        assert p[i..][0] == p[i];
      }
    }
    forall i | 0 <= i < |p| ensures NoSepAt(p + [c], [c], i) {
      assert (p + [c])[i..][0] == p[i];
    }
  }

  lemma ReplaceAbsent(s: string, a: char, b: char)
    requires a !in s
    ensures ReplaceChar(s, a, b) == s
  {
  }

  /** The pieces of a text joined by a one-character separator they do not contain split back apart. */
  lemma SplitJoinChar(parts: seq<string>, c: char)
    requires |parts| > 0
    requires forall k :: 0 <= k < |parts| ==> c !in parts[k]
    ensures SplitOn(Join([c], parts), [c]) == parts
  {
    forall k | 0 <= k < |parts| ensures SepFree(parts[k], [c]) && CleanBefore(parts[k], [c]) {
      SingleCharSep(parts[k], c);
    }
    SplitJoin(parts, [c]);
  }

  /** Lines as `strip()` leaves them: non-empty, no surrounding whitespace, no line break. */
  predicate BareLines(lines: seq<string>) {
    forall k :: 0 <= k < |lines| ==> Stripped(lines[k]) && '\n' !in lines[k]
  }

  /** The stripped, non-empty lines of a text made of stripped, non-empty lines are those lines. */
  lemma StrippedLinesOfJoin(lines: seq<string>)
    requires BareLines(lines)
    ensures StrippedLines(Join("\n", lines)) == lines
  {
    if |lines| == 0 {
      assert SplitOn("", "\n") == [""];
      assert StripAll([""]) == [""];
    } else {
      SplitJoinChar(lines, '\n');
      StripAllStripped(lines);
      NonEmptyOfNonEmpty(lines);
    }
  }

  /** Every piece preceded by `p`. */
  function Prefixed(p: string, xs: seq<string>): (r: seq<string>)
    ensures |r| == |xs| && forall k :: 0 <= k < |xs| ==> r[k] == p + xs[k]
  {
    seq(|xs|, k requires 0 <= k < |xs| => p + xs[k])
  }

  lemma JoinPrefixFirst(sep: string, p: string, a: string, rest: seq<string>)
    ensures Join(sep, [p + a] + rest) == p + Join(sep, [a] + rest)
  {
    if |rest| > 0 {
      JoinCons(sep, p + a, rest);
      JoinCons(sep, a, rest);
    } else {
      assert [p + a] + rest == [p + a] && [a] + rest == [a];
    }
  }

  /** Joining with `sep + p` is joining with `sep` after prefixing every piece but the first with `p`. */
  lemma {:induction false} JoinLongerSep(sep: string, p: string, x: string, rest: seq<string>)
    ensures Join(sep + p, [x] + rest) == Join(sep, [x] + Prefixed(p, rest))
    decreases |rest|
  {
    if |rest| == 0 {
      assert [x] + rest == [x] && [x] + Prefixed(p, rest) == [x];
    } else {
      var r0, tail := rest[0], rest[1..];
      var pt := Prefixed(p, tail);
      var j := Join(sep, [r0] + pt);
      assert rest == [r0] + tail;
      assert Prefixed(p, rest) == [p + r0] + pt;
      calc {
        Join(sep + p, [x] + rest);
        { JoinCons(sep + p, x, rest); }
        x + (sep + p) + Join(sep + p, [r0] + tail);
        { JoinLongerSep(sep, p, r0, tail); }
        x + (sep + p) + j;
        x + sep + (p + j);
        { JoinPrefixFirst(sep, p, r0, pt); }
        x + sep + Join(sep, [p + r0] + pt);
        { JoinCons(sep, x, [p + r0] + pt); }
        Join(sep, [x] + ([p + r0] + pt));
      }
    }
  }

  /** `strip()` removes a space put before a stripped text. */
  lemma StripPadded(w: string)
    requires Stripped(w)
    ensures Strip(" " + w) == w
  {
    assert (" " + w)[1..] == w;
    assert LStrip(" " + w) == LStrip(w);
    StripStripped(w);
  }

  /** Stripping the parts of `", "`-separated stripped words gives the words back. */
  lemma StripPaddedAll(ws: seq<string>)
    requires |ws| > 0
    requires forall k :: 0 <= k < |ws| ==> Stripped(ws[k])
    ensures StripAll([ws[0]] + Prefixed(" ", ws[1..])) == ws
  {
    var rest := Prefixed(" ", ws[1..]);
    var parts := [ws[0]] + rest;
    forall k | 0 <= k < |ws| ensures Strip(parts[k]) == ws[k] {
      if k == 0 {
        StripStripped(ws[0]);
      } else {
        assert parts[k] == rest[k - 1];
        StripPadded(ws[k]);
      }
    }
  }
}
