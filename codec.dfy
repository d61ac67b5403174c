/**
 * The digit-substitution codec of Kannadafy/core.py (`chunk_string`,
 * `encode_string`) and, as its partner, the decoder that the generated stub
 * runs: every character becomes the decimal digits of its code point, each
 * digit written as a symbol of the alphabet.
 */
module Codec {
  import opened Runtime
  import opened Seqs
  import opened Text
  import opened Decimal

  /** `MAX_STR_LEN`: the width of one line of the payload literal. */
  const MaxStrLen: nat := 70

  // ---------------------------------------------------------------------------
  // chunk_string

  /** `[s[i:i + n] for i in range(0, len(s), n)]`. */
  function Slices(s: string, n: nat): (r: seq<string>)
    requires n > 0
    ensures Concat(r) == s
    ensures forall k :: 0 <= k < |r| ==> 0 < |r[k]| <= n
    ensures forall k :: 0 <= k < |r| - 1 ==> |r[k]| == n
    ensures |r| == 0 <==> s == []
    decreases |s|
  {
    if |s| == 0 then []
    else if |s| <= n then [s]
    else [s[..n]] + Slices(s[n..], n)
  }

  /** Every slice followed by a backslash (`"{}\\".format(...)`). */
  function Marked(ps: seq<string>): seq<string> {
    seq(|ps|, k requires 0 <= k < |ps| => ps[k] + "\\")
  }

  /** `chunk_string(s, n)`. */
  function ChunkString(s: string, n: nat): string
    requires n > 0
  {
    TrimTrailing(Join("\n", Marked(Slices(s, n))), '\\')
  }

  lemma {:induction false} JoinMarked(ps: seq<string>)
    requires |ps| > 0
    ensures Join("\n", Marked(ps)) == Join("\\\n", ps) + "\\"
  {
    if |ps| > 1 {
      JoinMarked(ps[1..]);
      assert Marked(ps)[1..] == Marked(ps[1..]);
    }
  }

  lemma TrimAfter(x: string, c: char)
    ensures TrimTrailing(x + [c], c) == TrimTrailing(x, c)
  {
    assert (x + [c])[..|x + [c]| - 1] == x;
  }

  /** A character missing from a concatenation is missing from every piece. */
  lemma {:induction false} AvoidsPieces(ss: seq<string>, c: char)
    requires c !in Concat(ss)
    ensures forall k :: 0 <= k < |ss| ==> c !in ss[k]
  {
    if |ss| > 0 {
      AvoidsPieces(ss[1..], c);
      forall k | 0 < k < |ss| ensures c !in ss[k] {
        assert ss[k] == ss[1..][k - 1];
      }
    }
  }

  /**
   * The layout of a chunked payload: slices of at most `n` characters joined by
   * a backslash and a newline. Only a final backslash that belonged to the
   * payload itself is lost to `rstrip`.
   */
  lemma ChunkLayout(s: string, n: nat)
    requires n > 0
    ensures s == [] ==> ChunkString(s, n) == []
    ensures s != [] ==> ChunkString(s, n) == TrimTrailing(Join("\\\n", Slices(s, n)), '\\')
    ensures s != [] && s[|s| - 1] != '\\' ==> ChunkString(s, n) == Join("\\\n", Slices(s, n))
  {
    if s != [] {
      var ps := Slices(s, n);
      JoinMarked(ps);
      TrimAfter(Join("\\\n", ps), '\\');
      if s[|s| - 1] != '\\' {
        var last := ps[|ps| - 1];
        assert Concat(ps) == s;
        ConcatLastPiece(ps);
        JoinLast("\\\n", ps);
      }
    }
  }

  /** The last character of a concatenation of non-empty pieces is that of the last piece. */
  lemma {:induction false} ConcatLastPiece(ss: seq<string>)
    requires |ss| > 0 && forall k :: 0 <= k < |ss| ==> |ss[k]| > 0
    ensures var c := Concat(ss); var l := ss[|ss| - 1]; |c| > 0 && c[|c| - 1] == l[|l| - 1]
  {
    if |ss| > 1 {
      ConcatLastPiece(ss[1..]);
    }
  }

  /** `chunk_string` drops a trailing backslash of the text it chunks. */
  lemma ChunkEatsTrailingBackslash()
    ensures ChunkString("a\\", MaxStrLen) == "a"
  {
    var ps := Slices("a\\", MaxStrLen);
    assert ps == ["a\\"];
    var m := Marked(ps);
    assert |m| == 1 && m[0] == "a\\" + "\\";
    assert Join("\n", m) == "a\\\\";
    assert "a\\\\"[..2] == "a\\";
    assert "a\\"[..1] == "a";
  }

  // ---------------------------------------------------------------------------
  // The payload literal, as Python reads it back

  /** The value of the string literal `"t"` whose only escape is a backslash before a newline. */
  function LiteralValue(t: string): string
    decreases |t|
  {
    if |t| == 0 then []
    else if t[0] == '\\' && |t| >= 2 && t[1] == '\n' then LiteralValue(t[2..])
    else [t[0]] + LiteralValue(t[1..])
  }

  lemma {:induction false} LiteralAfterPlain(p: string, rest: string)
    requires '\\' !in p
    ensures LiteralValue(p + rest) == p + LiteralValue(rest)
  {
    if |p| > 0 {
      assert (p + rest)[1..] == p[1..] + rest;
      LiteralAfterPlain(p[1..], rest);
    } else {
      assert p + rest == rest;
    }
  }

  lemma {:induction false} LiteralOfJoin(ps: seq<string>)
    requires forall k :: 0 <= k < |ps| ==> '\\' !in ps[k]
    ensures LiteralValue(Join("\\\n", ps)) == Concat(ps)
  {
    if |ps| == 1 {
      LiteralAfterPlain(ps[0], []);
      assert ps[0] + [] == ps[0];
    } else if |ps| > 1 {
      var rest := Join("\\\n", ps[1..]);
      assert ps[0] + "\\\n" + rest == ps[0] + ("\\\n" + rest);
      LiteralAfterPlain(ps[0], "\\\n" + rest);
      assert ("\\\n" + rest)[2..] == rest;
      LiteralOfJoin(ps[1..]);
    }
  }

  /**
   * Read back as a string literal, the chunked text is the text itself: each
   * line break it inserted is escaped by the backslash before it.
   */
  lemma LiteralOfChunk(s: string, n: nat)
    requires n > 0
    requires '\\' !in s
    ensures LiteralValue(ChunkString(s, n)) == s
  {
    ChunkLayout(s, n);
    if s != [] {
      var ps := Slices(s, n);
      AvoidsPieces(ps, '\\');
      LiteralOfJoin(ps);
    }
  }

  // ---------------------------------------------------------------------------
  // encode_string

  /**
   * `[d1[int(i)] for i in str(n)]` with `d1 = dict(enumerate(alphabet))`: a
   * digit the alphabet has no entry for raises `KeyError`.
   */
  function DigitSymbols(ds: seq<nat>, alphabet: seq<string>): (r: Result<seq<string>>)
    ensures r.Ok? <==> forall i :: 0 <= i < |ds| ==> ds[i] < |alphabet|
    ensures r.Ok? ==> |r.value| == |ds| && forall i :: 0 <= i < |ds| ==> r.value[i] == alphabet[ds[i]]
    ensures r.Err? ==> r.error.KeyError?
  {
    if |ds| == 0 then Ok([])
    else if ds[0] >= |alphabet| then Err(KeyError(DecimalString(ds[0])))
    else
      var rest :- DigitSymbols(ds[1..], alphabet);
      Ok([alphabet[ds[0]]] + rest)
  }

  /** The group of one character: its code point's digit symbols joined by single spaces. */
  function Group(c: char, alphabet: seq<string>): Result<string> {
    var syms :- DigitSymbols(Digits(c as nat), alphabet);
    Ok(Join(" ", syms))
  }

  function Groups(s: string, alphabet: seq<string>): Result<seq<string>> {
    if |s| == 0 then Ok([])
    else
      var g :- Group(s[0], alphabet);
      var rest :- Groups(s[1..], alphabet);
      Ok([g] + rest)
  }

  /** `"  ".join(" ".join(d1[int(i)] for i in str(ord(c))) for c in s)`. */
  function Payload(s: string, alphabet: seq<string>): Result<string> {
    var gs :- Groups(s, alphabet);
    Ok(Join("  ", gs))
  }

  /**
   * `d2 = {v: k for k, v in d1.items()}`: every symbol maps to the position
   * it last occupies in the alphabet.
   */
  function InverseTable(alphabet: seq<string>): (t: map<string, nat>)
    ensures t.Keys == Elements(alphabet)
    ensures forall v :: v in t ==> t[v] < |alphabet| && alphabet[t[v]] == v
    ensures forall v, j :: v in t && t[v] < j < |alphabet| ==> alphabet[j] != v
  {
    if |alphabet| == 0 then map[]
    else
      var init, last := alphabet[..|alphabet| - 1], alphabet[|alphabet| - 1];
      assert alphabet == init + [last];
      InverseTable(init)[last := |alphabet| - 1]
  }

  /** In a duplicate-free alphabet every symbol maps back to its own position. */
  lemma InverseTableAt(alphabet: seq<string>, k: nat)
    requires Distinct(alphabet) && k < |alphabet|
    ensures alphabet[k] in InverseTable(alphabet) && InverseTable(alphabet)[alphabet[k]] == k
  {
    assert alphabet[k] in Elements(alphabet);
  }

  /** The two parameters `encode_string` substitutes into its stub template. */
  datatype EncodedDocument = EncodedDocument(table: map<string, nat>, body: string)

  /** `encode_string(s, alphabet)`, up to the rendering of the table and the template text. */
  function EncodeString(s: string, alphabet: seq<string>): Result<EncodedDocument> {
    var payload :- Payload(s, alphabet);
    Ok(EncodedDocument(InverseTable(alphabet), ChunkString(payload, MaxStrLen)))
  }

  /** The text of the stub, with `pformat` rendering the table. */
  function Render(doc: EncodedDocument, pformat: map<string, nat> -> string): string {
    "exec(\"\".join(map(chr,[int(\"\".join(str(" + pformat(doc.table)
    + "[i]) for i in x.split())) for x in\n\"" + doc.body
    + "\"\n.split(\"  \")])))\n"
  }

  // ---------------------------------------------------------------------------
  // The stub's decoder

  /** `chr(n)` succeeds: a Unicode scalar value (surrogates are left out, see README). */
  predicate IsCodePoint(n: nat) {
    n < 0xD800 || 0xE000 <= n < 0x11_0000
  }

  /** `"".join(str(table[i]) for i in syms)`, as digits; a symbol not in the table raises `KeyError`. */
  function SymbolDigits(syms: seq<string>, table: map<string, nat>): (r: Option<seq<nat>>)
    ensures r.Some? <==> forall i :: 0 <= i < |syms| ==> syms[i] in table
  {
    if |syms| == 0 then Some([])
    else if syms[0] !in table then None
    else
      var rest :- SymbolDigits(syms[1..], table);
      Some(Digits(table[syms[0]]) + rest)
  }

  /** `chr(int("".join(str(table[i]) for i in g.split())))`; `int("")` fails on an empty group. */
  function DecodeGroup(g: string, table: map<string, nat>): Option<char> {
    var ds :- SymbolDigits(Words(g), table);
    if |ds| == 0 then None
    else
      var n := ParseDigits(ds);
      if IsCodePoint(n) then Some(n as char) else None
  }

  function DecodeGroups(gs: seq<string>, table: map<string, nat>): Option<string> {
    if |gs| == 0 then Some([])
    else
      var c :- DecodeGroup(gs[0], table);
      var rest :- DecodeGroups(gs[1..], table);
      Some([c] + rest)
  }

  /** What the stub hands to `exec`: `None` where the stub itself would raise. */
  function Decoded(doc: EncodedDocument): Option<string> {
    DecodeGroups(SplitOn(LiteralValue(doc.body), "  "), doc.table)
  }

  // ---------------------------------------------------------------------------
  // Properties

  /** The symbols of the digits of `c`'s code point. */
  function SymbolsOf(c: char, alphabet: seq<string>): seq<string>
    requires |alphabet| >= 10
  {
    var ds := Digits(c as nat);
    seq(|ds|, j requires 0 <= j < |ds| => alphabet[ds[j]])
  }

  /** One group per character, in order: the digit symbols of its code point, single-spaced. */
  lemma {:induction false} GroupsLayout(s: string, alphabet: seq<string>)
    requires |alphabet| >= 10
    ensures Groups(s, alphabet).Ok?
    ensures var gs := Groups(s, alphabet).value;
      |gs| == |s| && forall i :: 0 <= i < |s| ==> gs[i] == Join(" ", SymbolsOf(s[i], alphabet))
  {
    if |s| > 0 {
      var syms := DigitSymbols(Digits(s[0] as nat), alphabet);
      assert syms.Ok?;
      assert syms.value == SymbolsOf(s[0], alphabet);
      GroupsLayout(s[1..], alphabet);
      var gs := Groups(s, alphabet).value;
      forall i | 0 < i < |s| ensures gs[i] == Join(" ", SymbolsOf(s[i], alphabet)) {
        assert s[i] == s[1..][i - 1];
      }
    }
  }

  /** Only the first ten symbols of the alphabet ever appear in the payload. */
  lemma SymbolsAreDigits(c: char, alphabet: seq<string>)
    requires |alphabet| >= 10
    ensures forall j :: 0 <= j < |SymbolsOf(c, alphabet)| ==> SymbolsOf(c, alphabet)[j] in alphabet[..10]
  {
    var ds := Digits(c as nat);
    var syms := SymbolsOf(c, alphabet);
    forall j | 0 <= j < |syms| ensures syms[j] in alphabet[..10] {
      assert syms[j] == alphabet[ds[j]] == alphabet[..10][ds[j]];
    }
  }

  /** A symbol that survives the trip through the stub: non-empty, no whitespace, no quote, no backslash. */
  predicate SafeSymbol(sym: string) {
    sym != [] && SpaceFree(sym) && '"' !in sym && '\\' !in sym
  }

  /** An alphabet whose ten digit symbols are safe. */
  predicate DigitSymbolsSafe(alphabet: seq<string>) {
    |alphabet| >= 10 && forall d :: 0 <= d < 10 ==> SafeSymbol(alphabet[d])
  }

  /** Non-empty, with no space at either end and never two spaces in a row. */
  predicate SingleSpaced(g: string) {
    |g| > 0 && g[0] != ' ' && g[|g| - 1] != ' '
    && forall i :: 0 <= i < |g| - 1 ==> !(g[i] == ' ' && g[i + 1] == ' ')
  }

  lemma {:induction false} JoinSingleSpaced(syms: seq<string>)
    requires |syms| > 0
    requires forall k :: 0 <= k < |syms| ==> syms[k] != [] && SpaceFree(syms[k])
    ensures SingleSpaced(Join(" ", syms))
  {
    var w := syms[0];
    assert !IsSpace(w[0]) && !IsSpace(w[|w| - 1]);
    if |syms| == 1 {
      forall i | 0 <= i < |w| - 1 ensures !(w[i] == ' ' && w[i + 1] == ' ') {
        assert !IsSpace(w[i]);
      }
    } else {
      var rest := Join(" ", syms[1..]);
      JoinSingleSpaced(syms[1..]);
      var g := w + " " + rest;
      assert g == Join(" ", syms);
      forall i | 0 <= i < |g| - 1 ensures !(g[i] == ' ' && g[i + 1] == ' ') {
        if i < |w| {
          assert g[i] == w[i] && !IsSpace(w[i]);
        } else if i == |w| {
          assert g[i + 1] == rest[0];
        } else {
          assert g[i] == rest[i - |w| - 1] && g[i + 1] == rest[i - |w|];
        }
      }
      assert g[|g| - 1] == rest[|rest| - 1];
    }
  }

  /** A single-spaced group neither contains the group separator nor runs into it. */
  lemma SingleSpacedClean(g: string)
    requires SingleSpaced(g)
    ensures SepFree(g, "  ") && CleanBefore(g, "  ")
  {
    forall i | 0 <= i <= |g| ensures NoSepAt(g, "  ", i) {
      if i < |g| - 1 {
        assert g[i..][..2] == [g[i], g[i + 1]];
      }
    }
    forall i | 0 <= i < |g| ensures NoSepAt(g + "  ", "  ", i) {
      var s := g + "  ";
      assert s[i] == g[i] && s[i..][..2] == [s[i], s[i + 1]];
      if i < |g| - 1 {
        assert s[i + 1] == g[i + 1];
        assert !(g[i] == ' ' && g[i + 1] == ' ');
      } else {
        assert g[i] != ' ';
      }
    }
  }

  lemma {:induction false} SymbolDigitsOf(ds: seq<nat>, syms: seq<string>, table: map<string, nat>)
    requires |syms| == |ds|
    requires forall j :: 0 <= j < |ds| ==> ds[j] < 10 && syms[j] in table && table[syms[j]] == ds[j]
    ensures SymbolDigits(syms, table) == Some(ds)
  {
    if |ds| > 0 {
      assert forall j :: 0 <= j < |ds| - 1 ==> ds[1..][j] == ds[j + 1] && syms[1..][j] == syms[j + 1];
      SymbolDigitsOf(ds[1..], syms[1..], table);
      assert Digits(ds[0]) == [ds[0]];
      assert [ds[0]] + ds[1..] == ds;
    }
  }

  /** The symbols of `c` are safe words, each mapped by the table back to its digit. */
  lemma SymbolsOfInTable(c: char, alphabet: seq<string>)
    requires Distinct(alphabet) && DigitSymbolsSafe(alphabet)
    ensures var ds, syms, table := Digits(c as nat), SymbolsOf(c, alphabet), InverseTable(alphabet);
      |syms| == |ds|
      && forall k :: 0 <= k < |syms| ==>
           syms[k] != [] && SpaceFree(syms[k]) && ds[k] < 10 && syms[k] in table && table[syms[k]] == ds[k]
  {
    var ds := Digits(c as nat);
    var syms := SymbolsOf(c, alphabet);
    forall k | 0 <= k < |syms|
      ensures syms[k] != [] && SpaceFree(syms[k]) && ds[k] < 10
      ensures syms[k] in InverseTable(alphabet) && InverseTable(alphabet)[syms[k]] == ds[k]
    {
      assert syms[k] == alphabet[ds[k]];
      InverseTableAt(alphabet, ds[k]);
    }
  }

  /** The stub turns the group of `c` back into `c`. */
  lemma DecodeGroupOf(c: char, alphabet: seq<string>)
    requires Distinct(alphabet) && DigitSymbolsSafe(alphabet)
    ensures DecodeGroup(Join(" ", SymbolsOf(c, alphabet)), InverseTable(alphabet)) == Some(c)
  {
    var syms := SymbolsOf(c, alphabet);
    SymbolsOfInTable(c, alphabet);
    WordsOfJoin(syms);
    SymbolDigitsOf(Digits(c as nat), syms, InverseTable(alphabet));
    ParseDigitsOfDigits(c as nat);
  }

  lemma {:induction false} DecodeGroupsOf(s: string, gs: seq<string>, alphabet: seq<string>)
    requires Distinct(alphabet) && DigitSymbolsSafe(alphabet)
    requires |gs| == |s| && forall i :: 0 <= i < |s| ==> gs[i] == Join(" ", SymbolsOf(s[i], alphabet))
    ensures DecodeGroups(gs, InverseTable(alphabet)) == Some(s)
  {
    if |s| > 0 {
      DecodeGroupOf(s[0], alphabet);
      forall i | 0 <= i < |s| - 1 ensures gs[1..][i] == Join(" ", SymbolsOf(s[1..][i], alphabet)) {
        assert gs[1..][i] == gs[i + 1] && s[1..][i] == s[i + 1];
      }
      DecodeGroupsOf(s[1..], gs[1..], alphabet);
      assert [s[0]] + s[1..] == s;
    }
  }

  /** The character `c` avoids every symbol of the group of `d` when it avoids the ten digit symbols. */
  lemma GroupAvoids(d: char, alphabet: seq<string>, c: char)
    requires c != ' ' && |alphabet| >= 10
    requires forall k :: 0 <= k < 10 ==> c !in alphabet[k]
    ensures c !in Join(" ", SymbolsOf(d, alphabet))
  {
    var syms := SymbolsOf(d, alphabet);
    SymbolsAreDigits(d, alphabet);
    forall k | 0 <= k < |syms| ensures c !in syms[k] {
      var e :| 0 <= e < 10 && alphabet[..10][e] == syms[k];
      assert syms[k] == alphabet[e];
    }
    JoinAvoids(" ", syms, c);
  }

  /** The payload avoids `c` when the ten digit symbols do. */
  lemma PayloadAvoids(s: string, alphabet: seq<string>, c: char)
    requires c != ' ' && |alphabet| >= 10
    requires forall k :: 0 <= k < 10 ==> c !in alphabet[k]
    ensures Payload(s, alphabet).Ok? && c !in Payload(s, alphabet).value
  {
    GroupsLayout(s, alphabet);
    var gs := Groups(s, alphabet).value;
    forall i | 0 <= i < |gs| ensures c !in gs[i] {
      GroupAvoids(s[i], alphabet, c);
    }
    JoinAvoids("  ", gs, c);
  }

  /**
   * The stub decodes to the original text: for every non-empty text and every
   * duplicate-free alphabet whose ten digit symbols are non-empty and free of
   * whitespace, quotes and backslashes.
   */
  lemma RoundTrip(s: string, alphabet: seq<string>)
    requires |s| > 0
    requires Distinct(alphabet) && DigitSymbolsSafe(alphabet)
    ensures EncodeString(s, alphabet).Ok?
    ensures Decoded(EncodeString(s, alphabet).value) == Some(s)
  {
    GroupsLayout(s, alphabet);
    var gs := Groups(s, alphabet).value;
    var payload := Join("  ", gs);
    forall i | 0 <= i < |gs| ensures SepFree(gs[i], "  ") && CleanBefore(gs[i], "  ") {
      var syms := SymbolsOf(s[i], alphabet);
      var ds := Digits(s[i] as nat);
      forall k | 0 <= k < |syms| ensures syms[k] != [] && SpaceFree(syms[k]) {
        assert syms[k] == alphabet[ds[k]];
      }
      JoinSingleSpaced(syms);
      SingleSpacedClean(gs[i]);
    }
    SplitJoin(gs, "  ");
    PayloadAvoids(s, alphabet, '\\');
    LiteralOfChunk(payload, MaxStrLen);
    DecodeGroupsOf(s, gs, alphabet);
  }

  /** The payload literal cannot be closed early: it holds no double quote. */
  lemma BodyHasNoQuote(s: string, alphabet: seq<string>)
    requires DigitSymbolsSafe(alphabet)
    ensures EncodeString(s, alphabet).Ok?
    ensures '"' !in EncodeString(s, alphabet).value.body
  {
    PayloadAvoids(s, alphabet, '"');
    var payload := Payload(s, alphabet).value;
    var body := ChunkString(payload, MaxStrLen);
    var j := Join("\n", Marked(Slices(payload, MaxStrLen)));
    AvoidsPieces(Slices(payload, MaxStrLen), '"');
    JoinAvoids("\n", Marked(Slices(payload, MaxStrLen)), '"');
    assert body == j[..|body|];
  }

  /** An empty input gives an empty literal, on which the stub's `int("")` fails. */
  lemma EmptyInput(alphabet: seq<string>)
    ensures EncodeString("", alphabet) == Ok(EncodedDocument(InverseTable(alphabet), ""))
    ensures Decoded(EncodeString("", alphabet).value) == None
  {
    ChunkLayout("", MaxStrLen);
    assert SplitOn("", "  ") == [""];
    assert Words("") == [];
  }

  /** Some digit of `ds` has no symbol among the first `n`. */
  predicate MissingDigit(ds: seq<nat>, n: nat) {
    exists j :: 0 <= j < |ds| && ds[j] >= n
  }

  /** A digit the alphabet lacks fails the encoding with `KeyError`: a short alphabet fails on the first such character. */
  lemma ShortAlphabetFails(s: string, alphabet: seq<string>, i: nat)
    requires i < |s| && MissingDigit(Digits(s[i] as nat), |alphabet|)
    ensures EncodeString(s, alphabet).Err? && EncodeString(s, alphabet).error.KeyError?
  {
    PayloadFails(s, alphabet, i);
  }

  lemma {:induction false} PayloadFails(s: string, alphabet: seq<string>, i: nat)
    requires i < |s| && MissingDigit(Digits(s[i] as nat), |alphabet|)
    ensures Groups(s, alphabet).Err? && Groups(s, alphabet).error.KeyError?
  {
    if Group(s[0], alphabet).Ok? && i > 0 {
      assert s[1..][i - 1] == s[i];
      PayloadFails(s[1..], alphabet, i - 1);
    }
  }
}
