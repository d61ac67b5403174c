/**
 * `CHARACTER_SETS` and `get_available_scripts` of Kannadafy/core.py. Each
 * table is written as the concatenation of its source rows.
 */
module Scripts {
  import opened Runtime
  import opened Seqs
  import opened Validation
  import opened Codec

  const KannadaRow1: seq<string> := ["ಅ", "ಆ", "ಇ", "ಈ", "ಉ", "ಊ", "ಋ", "ಎ", "ಏ", "ಐ", "ಒ", "ಓ", "ಔ", "ಅಂ", "ಅ:"]
  const KannadaRow2: seq<string> := ["ಕ", "ಖ", "ಗ", "ಘ", "ಙ", "ಚ", "ಛ", "ಜ", "ಝ", "ಞ", "ಟ", "ಠ", "ಡ", "ಢ", "ಣ"]
  const KannadaRow3: seq<string> := ["ತ", "ಥ", "ದ", "ಧ", "ನ", "ಪ", "ಫ", "ಬ", "ಭ", "ಮ", "ಯ", "ರ", "ಲ", "ವ", "ಶ"]
  const KannadaRow4: seq<string> := ["ಷ", "ಸ", "ಹ", "ಳ"]
  const Kannada: seq<string> := KannadaRow1 + KannadaRow2 + KannadaRow3 + KannadaRow4

  const DevanagariRow1: seq<string> := ["अ", "आ", "इ", "ई", "उ", "ऊ", "ए", "ऐ", "ओ", "औ", "क", "ख", "ग", "घ", "ङ"]
  const DevanagariRow2: seq<string> := ["च", "छ", "ज", "झ", "ञ", "ट", "ठ", "ड", "ढ", "ण", "त", "थ", "द", "ध", "न"]
  const DevanagariRow3: seq<string> := ["प", "फ", "ब", "भ", "म", "य", "र", "ल", "व", "श", "ष", "स", "ह"]
  const Devanagari: seq<string> := DevanagariRow1 + DevanagariRow2 + DevanagariRow3

  const TeluguRow1: seq<string> := ["అ", "ఆ", "ఇ", "ఈ", "ఉ", "ఊ", "ఋ", "ఎ", "ఏ", "ఐ", "ఒ", "ఓ", "ఔ", "క", "ఖ"]
  const TeluguRow2: seq<string> := ["గ", "ఘ", "ఙ", "చ", "ఛ", "జ", "ఝ", "ఞ", "ట", "ఠ", "డ", "ఢ", "ణ", "త", "థ"]
  const TeluguRow3: seq<string> := ["ద", "ధ", "న", "ప", "ఫ", "బ", "భ", "మ", "య", "ర", "ల", "వ", "శ", "ష", "స", "హ"]
  const Telugu: seq<string> := TeluguRow1 + TeluguRow2 + TeluguRow3

  const TamilRow1: seq<string> := ["அ", "ஆ", "இ", "ஈ", "உ", "ஊ", "எ", "ஏ", "ஐ", "ஒ", "ஓ", "ஔ", "க", "ங"]
  const TamilRow2: seq<string> := ["ச", "ஞ", "ட", "ண", "த", "ந", "ப", "ம", "ய", "ர", "ல", "வ", "ழ", "ள"]
  const TamilRow3: seq<string> := ["ற", "ன", "ஜ", "ஷ", "ஸ", "ஹ"]
  const Tamil: seq<string> := TamilRow1 + TamilRow2 + TamilRow3

  const GreekRow1: seq<string> := ["α", "β", "γ", "δ", "ε", "ζ", "η", "θ", "ι", "κ", "λ", "μ", "ν", "ξ"]
  const GreekRow2: seq<string> := ["ο", "π", "ρ", "σ", "τ", "υ", "φ", "χ", "ψ", "ω", "Γ", "Δ", "Θ", "Λ"]
  const GreekRow3: seq<string> := ["Ξ", "Π", "Σ", "Φ", "Ψ", "Ω"]
  const Greek: seq<string> := GreekRow1 + GreekRow2 + GreekRow3

  /** The names of the tables, in the order `CHARACTER_SETS` lists them. */
  const ScriptNames: seq<string> := ["kannada", "devanagari", "telugu", "tamil", "greek"]

  /** `CHARACTER_SETS`. */
  const CharacterSets: map<string, seq<string>> :=
    map["kannada" := Kannada, "devanagari" := Devanagari, "telugu" := Telugu, "tamil" := Tamil, "greek" := Greek]

  /** `get_available_scripts()`: every table name once, in table order. */
  function GetAvailableScripts(): (r: seq<string>)
    ensures Distinct(r)
    ensures forall name :: name in r <==> name in CharacterSets
    ensures |r| == 5 && r[0] == "kannada"
  {
    ScriptNames
  }

  lemma DistinctRows3(a: seq<string>, b: seq<string>, c: seq<string>)
    requires Distinct(a) && Distinct(b) && Distinct(c)
    requires Disjoint(a, b) && Disjoint(a, c) && Disjoint(b, c)
    ensures Distinct(a + b + c)
  {
    DistinctAppend(a, b);
    DisjointAppend(a, b, c);
    DistinctAppend(a + b, c);
  }

  lemma DistinctRows4(a: seq<string>, b: seq<string>, c: seq<string>, d: seq<string>)
    requires Distinct(a) && Distinct(b) && Distinct(c) && Distinct(d)
    requires Disjoint(a, b) && Disjoint(a, c) && Disjoint(b, c)
    requires Disjoint(a, d) && Disjoint(b, d) && Disjoint(c, d)
    ensures Distinct(a + b + c + d)
  {
    DistinctRows3(a, b, c);
    DisjointAppend(a, b, d);
    DisjointAppend(a + b, c, d);
    DistinctAppend(a + b + c, d);
  }

  /** An alphabet whose first row holds ten safe symbols has safe digit symbols. */
  lemma SafeFirstRow(row: seq<string>, rest: seq<string>)
    requires |row| >= 10 && forall k :: 0 <= k < |row| ==> SafeSymbol(row[k])
    ensures DigitSymbolsSafe(row + rest)
  {
    assert forall d :: 0 <= d < 10 ==> (row + rest)[d] == row[d];
  }

  lemma KannadaRow1Distinct()
    ensures Distinct(KannadaRow1)
  {
  }
  lemma KannadaRow2Distinct()
    ensures Distinct(KannadaRow2)
  {
  }
  lemma KannadaRow3Distinct()
    ensures Distinct(KannadaRow3)
  {
  }
  lemma KannadaRow4Distinct()
    ensures Distinct(KannadaRow4)
  {
  }
  lemma KannadaRow1ApartRow2()
    ensures Disjoint(KannadaRow1, KannadaRow2)
  {
  }
  lemma KannadaRow1ApartRow3()
    ensures Disjoint(KannadaRow1, KannadaRow3)
  {
  }
  lemma KannadaRow1ApartRow4()
    ensures Disjoint(KannadaRow1, KannadaRow4)
  {
  }
  lemma KannadaRow2ApartRow3()
    ensures Disjoint(KannadaRow2, KannadaRow3)
  {
  }
  lemma KannadaRow2ApartRow4()
    ensures Disjoint(KannadaRow2, KannadaRow4)
  {
  }
  lemma KannadaRow3ApartRow4()
    ensures Disjoint(KannadaRow3, KannadaRow4)
  {
  }
  lemma KannadaRow1Safe()
    ensures forall k :: 0 <= k < |KannadaRow1| ==> SafeSymbol(KannadaRow1[k])
  {
  }

  /** The kannada table: 49 symbols, none repeated, the first ten safe for the stub. */
  lemma KannadaValid()
    ensures |Kannada| == 49 && ValidAlphabet(Kannada) && DigitSymbolsSafe(Kannada)
  {
    KannadaRow1Distinct();
    KannadaRow2Distinct();
    KannadaRow3Distinct();
    KannadaRow4Distinct();
    KannadaRow1ApartRow2();
    KannadaRow1ApartRow3();
    KannadaRow1ApartRow4();
    KannadaRow2ApartRow3();
    KannadaRow2ApartRow4();
    KannadaRow3ApartRow4();
    KannadaRow1Safe();
    DistinctRows4(KannadaRow1, KannadaRow2, KannadaRow3, KannadaRow4);
    SafeFirstRow(KannadaRow1, KannadaRow2 + KannadaRow3 + KannadaRow4);
    assert KannadaRow1 + (KannadaRow2 + KannadaRow3 + KannadaRow4) == Kannada;
  }

  lemma DevanagariRow1Distinct()
    ensures Distinct(DevanagariRow1)
  {
  }
  lemma DevanagariRow2Distinct()
    ensures Distinct(DevanagariRow2)
  {
  }
  lemma DevanagariRow3Distinct()
    ensures Distinct(DevanagariRow3)
  {
  }
  lemma DevanagariRow1ApartRow2()
    ensures Disjoint(DevanagariRow1, DevanagariRow2)
  {
  }
  lemma DevanagariRow1ApartRow3()
    ensures Disjoint(DevanagariRow1, DevanagariRow3)
  {
  }
  lemma DevanagariRow2ApartRow3()
    ensures Disjoint(DevanagariRow2, DevanagariRow3)
  {
  }
  lemma DevanagariRow1Safe()
    ensures forall k :: 0 <= k < |DevanagariRow1| ==> SafeSymbol(DevanagariRow1[k])
  {
  }

  /** The devanagari table: 43 symbols, none repeated, the first ten safe for the stub. */
  lemma DevanagariValid()
    ensures |Devanagari| == 43 && ValidAlphabet(Devanagari) && DigitSymbolsSafe(Devanagari)
  {
    DevanagariRow1Distinct();
    DevanagariRow2Distinct();
    DevanagariRow3Distinct();
    DevanagariRow1ApartRow2();
    DevanagariRow1ApartRow3();
    DevanagariRow2ApartRow3();
    DevanagariRow1Safe();
    DistinctRows3(DevanagariRow1, DevanagariRow2, DevanagariRow3);
    SafeFirstRow(DevanagariRow1, DevanagariRow2 + DevanagariRow3);
    assert DevanagariRow1 + (DevanagariRow2 + DevanagariRow3) == Devanagari;
  }

  lemma TeluguRow1Distinct()
    ensures Distinct(TeluguRow1)
  {
  }
  lemma TeluguRow2Distinct()
    ensures Distinct(TeluguRow2)
  {
  }
  lemma TeluguRow3Distinct()
    ensures Distinct(TeluguRow3)
  {
  }
  lemma TeluguRow1ApartRow2()
    ensures Disjoint(TeluguRow1, TeluguRow2)
  {
  }
  lemma TeluguRow1ApartRow3()
    ensures Disjoint(TeluguRow1, TeluguRow3)
  {
  }
  lemma TeluguRow2ApartRow3()
    ensures Disjoint(TeluguRow2, TeluguRow3)
  {
  }
  lemma TeluguRow1Safe()
    ensures forall k :: 0 <= k < |TeluguRow1| ==> SafeSymbol(TeluguRow1[k])
  {
  }

  /** The telugu table: 46 symbols, none repeated, the first ten safe for the stub. */
  lemma TeluguValid()
    ensures |Telugu| == 46 && ValidAlphabet(Telugu) && DigitSymbolsSafe(Telugu)
  {
    TeluguRow1Distinct();
    TeluguRow2Distinct();
    TeluguRow3Distinct();
    TeluguRow1ApartRow2();
    TeluguRow1ApartRow3();
    TeluguRow2ApartRow3();
    TeluguRow1Safe();
    DistinctRows3(TeluguRow1, TeluguRow2, TeluguRow3);
    SafeFirstRow(TeluguRow1, TeluguRow2 + TeluguRow3);
    assert TeluguRow1 + (TeluguRow2 + TeluguRow3) == Telugu;
  }

  lemma TamilRow1Distinct()
    ensures Distinct(TamilRow1)
  {
  }
  lemma TamilRow2Distinct()
    ensures Distinct(TamilRow2)
  {
  }
  lemma TamilRow3Distinct()
    ensures Distinct(TamilRow3)
  {
  }
  lemma TamilRow1ApartRow2()
    ensures Disjoint(TamilRow1, TamilRow2)
  {
  }
  lemma TamilRow1ApartRow3()
    ensures Disjoint(TamilRow1, TamilRow3)
  {
  }
  lemma TamilRow2ApartRow3()
    ensures Disjoint(TamilRow2, TamilRow3)
  {
  }
  lemma TamilRow1Safe()
    ensures forall k :: 0 <= k < |TamilRow1| ==> SafeSymbol(TamilRow1[k])
  {
  }

  /** The tamil table: 34 symbols, none repeated, the first ten safe for the stub. */
  lemma TamilValid()
    ensures |Tamil| == 34 && ValidAlphabet(Tamil) && DigitSymbolsSafe(Tamil)
  {
    TamilRow1Distinct();
    TamilRow2Distinct();
    TamilRow3Distinct();
    TamilRow1ApartRow2();
    TamilRow1ApartRow3();
    TamilRow2ApartRow3();
    TamilRow1Safe();
    DistinctRows3(TamilRow1, TamilRow2, TamilRow3);
    SafeFirstRow(TamilRow1, TamilRow2 + TamilRow3);
    assert TamilRow1 + (TamilRow2 + TamilRow3) == Tamil;
  }

  lemma GreekRow1Distinct()
    ensures Distinct(GreekRow1)
  {
  }
  lemma GreekRow2Distinct()
    ensures Distinct(GreekRow2)
  {
  }
  lemma GreekRow3Distinct()
    ensures Distinct(GreekRow3)
  {
  }
  lemma GreekRow1ApartRow2()
    ensures Disjoint(GreekRow1, GreekRow2)
  {
  }
  lemma GreekRow1ApartRow3()
    ensures Disjoint(GreekRow1, GreekRow3)
  {
  }
  lemma GreekRow2ApartRow3()
    ensures Disjoint(GreekRow2, GreekRow3)
  {
  }
  lemma GreekRow1Safe()
    ensures forall k :: 0 <= k < |GreekRow1| ==> SafeSymbol(GreekRow1[k])
  {
  }

  /** The greek table: 34 symbols, none repeated, the first ten safe for the stub. */
  lemma GreekValid()
    ensures |Greek| == 34 && ValidAlphabet(Greek) && DigitSymbolsSafe(Greek)
  {
    GreekRow1Distinct();
    GreekRow2Distinct();
    GreekRow3Distinct();
    GreekRow1ApartRow2();
    GreekRow1ApartRow3();
    GreekRow2ApartRow3();
    GreekRow1Safe();
    DistinctRows3(GreekRow1, GreekRow2, GreekRow3);
    SafeFirstRow(GreekRow1, GreekRow2 + GreekRow3);
    assert GreekRow1 + (GreekRow2 + GreekRow3) == Greek;
  }

  /** Every predefined table passes `validate_mapping` and can be encoded and decoded. */
  lemma CharacterSetsValid(name: string)
    requires name in CharacterSets
    ensures ValidateMapping(CharacterSets[name]) == Ok(true)
    ensures Distinct(CharacterSets[name]) && DigitSymbolsSafe(CharacterSets[name])
  {
    KannadaValid();
    DevanagariValid();
    TeluguValid();
    TamilValid();
    GreekValid();
  }
}
