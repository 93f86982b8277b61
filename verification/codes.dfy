/** The fixed lookup tables the exporter uses to turn error category and
    severity codes into the names the MQM viewer displays, and the codes the
    marking pickers offer. */
module Codes {

  const CATEGORY_NAME: map<string, string> := map[
    "000" := "no-error",
    "A01" := "Accuracy/Mistranslation",
    "A02" := "Accuracy/PositiveNegative",
    "A03" := "Accuracy/Numbers",
    "A04" := "Accuracy/Pronoun",
    "A05" := "Accuracy/UniqueNoun",
    "A06" := "Accuracy/Omission",
    "A07" := "Accuracy/Addition",
    "A08" := "Accuracy/Untranslated",
    "A09" := "Accuracy/Others",
    "F01" := "Fluency/Spelling",
    "F02" := "Fluency/WrongKanji",
    "F03" := "Fluency/Grammar",
    "F04" := "Fluency/Misuse",
    "F05" := "Fluency/Collocation",
    "F06" := "Fluency/GrammarRegister",
    "F07" := "Fluency/Ambiguity",
    "F08" := "Fluency/Unintelligible",
    "F09" := "Fluency/Symbols",
    "F10" := "Fluency/Others",
    "T01" := "Terminology/Termbase",
    "T02" := "Terminology/Domain",
    "T03" := "Terminology/Inconsistent",
    "T04" := "Terminology/Others",
    "S01" := "Style/Inconsistent",
    "S02" := "Style/Register",
    "S03" := "Style/Inconsistent",
    "S04" := "Style/Others",
    "L01" := "LocaleConvention",
    "SE1" := "SourceError"
  ]

  const SEVERITY_NAME: map<string, string> := map[
    "no-error" := "no-error",
    "critical" := "Critical",
    "minor" := "Minor",
    "major" := "Major",
    "not-judgeable" := "NotJudgeable"
  ]

  /** The options of the error category picker, in display order. */
  const CATEGORY_OPTIONS: seq<string> := [
    "000", "A01", "A02", "A03", "A04", "A05", "A06", "A07", "A08", "A09",
    "F01", "F02", "F03", "F04", "F05", "F06", "F07", "F08", "F09", "F10",
    "T01", "T02", "T03", "T04", "S01", "S02", "S03", "S04", "L01", "SE1"
  ]

  /** The options of the error severity picker, in display order. */
  const SEVERITY_OPTIONS: seq<string> := ["critical", "major", "minor", "not-judgeable", "no-error"]

  predicate Distinct(s: seq<string>)
  {
    forall i, j :: 0 <= i < j < |s| ==> s[i] != s[j]
  }

  lemma {:induction false} DistinctCardinality(s: seq<string>)
    requires Distinct(s)
    ensures |set x | x in s| == |s|
  {
    if |s| > 0 {
      DistinctCardinality(s[1..]);
      assert (set x | x in s) == (set x | x in s[1..]) + {s[0]};
      assert s[0] !in s[1..];
    }
  }

  lemma CategoryKeysListed()
    ensures CATEGORY_NAME.Keys == set c | c in CATEGORY_OPTIONS
  {
  }

  lemma CategoryOptionsDistinct()
    ensures Distinct(CATEGORY_OPTIONS)
  {
    var accuracy, fluency, terminology, style := ACCURACY_CODES, FLUENCY_CODES, TERMINOLOGY_CODES, STYLE_CODES;
    CategoryGroups();
    GroupsDistinct();
    GroupsHeads();
    var s := ["000"];
    HeadsApart(s, accuracy, {'0'}, 'A');
    s := s + accuracy;
    HeadsApart(s, fluency, {'0', 'A'}, 'F');
    s := s + fluency;
    HeadsApart(s, terminology, {'0', 'A', 'F'}, 'T');
    s := s + terminology;
    var pre := s;
    HeadsApart(s, style, {'0', 'A', 'F', 'T'}, 'S');
    s := s + style;
    HeadsApart(s, ["L01"], {'0', 'A', 'F', 'T', 'S'}, 'L');
    s := s + ["L01"];
    forall i | 0 <= i < |s| ensures s[i] != "SE1" {
      if i < |pre| {
        assert s[i] == pre[i] && pre[i][0] != 'S';
      } else if i < |pre| + |style| {
        assert s[i] == style[i - |pre|];
      } else {
        assert s[i] == "L01";
      }
    }
    DistinctJoin(s, ["SE1"]);
  }

  /** The picker's options, group by group. */
  const ACCURACY_CODES := ["A01", "A02", "A03", "A04", "A05", "A06", "A07", "A08", "A09"]
  const FLUENCY_CODES := ["F01", "F02", "F03", "F04", "F05", "F06", "F07", "F08", "F09", "F10"]
  const TERMINOLOGY_CODES := ["T01", "T02", "T03", "T04"]
  const STYLE_CODES := ["S01", "S02", "S03", "S04"]

  lemma CategoryGroups()
    ensures CATEGORY_OPTIONS
         == ["000"] + ACCURACY_CODES + FLUENCY_CODES + TERMINOLOGY_CODES + STYLE_CODES + ["L01"] + ["SE1"]
  {
  }

  lemma GroupsDistinct()
    ensures Distinct(ACCURACY_CODES) && Distinct(FLUENCY_CODES)
    ensures Distinct(TERMINOLOGY_CODES) && Distinct(STYLE_CODES)
  {
  }

  lemma GroupsHeads()
    ensures HeadsAre(ACCURACY_CODES, 'A') && HeadsAre(FLUENCY_CODES, 'F')
    ensures HeadsAre(TERMINOLOGY_CODES, 'T') && HeadsAre(STYLE_CODES, 'S')
    ensures HeadsIn(["000"], {'0'}) && "SE1" !in STYLE_CODES
  {
  }

  /** Every element is non-empty and starts with `c`. */
  predicate HeadsAre(s: seq<string>, c: char)
  {
    forall i :: 0 <= i < |s| ==> |s[i]| > 0 && s[i][0] == c
  }

  /** Every element is non-empty and starts with one of `heads`. */
  predicate HeadsIn(s: seq<string>, heads: set<char>)
  {
    forall i :: 0 <= i < |s| ==> |s[i]| > 0 && s[i][0] in heads
  }

  /** Appending distinct strings whose first character no earlier string
      starts with keeps a list distinct. */
  lemma HeadsApart(a: seq<string>, b: seq<string>, heads: set<char>, c: char)
    requires Distinct(a) && Distinct(b) && HeadsAre(b, c)
    requires HeadsIn(a, heads) && c !in heads
    ensures Distinct(a + b) && HeadsIn(a + b, heads + {c})
  {
    forall i, j | 0 <= i < |a| && 0 <= j < |b| ensures a[i] != b[j] {
      assert a[i][0] != b[j][0];
    }
    DistinctJoin(a, b);
    forall i | 0 <= i < |a + b| ensures |(a + b)[i]| > 0 && (a + b)[i][0] in heads + {c} {
      if i < |a| {
        assert (a + b)[i] == a[i];
      } else {
        assert (a + b)[i] == b[i - |a|];
      }
    }
  }

  lemma DistinctJoin(a: seq<string>, b: seq<string>)
    requires Distinct(a) && Distinct(b)
    requires forall i, j :: 0 <= i < |a| && 0 <= j < |b| ==> a[i] != b[j]
    ensures Distinct(a + b)
  {
    forall i, j | 0 <= i < j < |a + b| ensures (a + b)[i] != (a + b)[j] {
      if j < |a| {
        assert (a + b)[i] == a[i] && (a + b)[j] == a[j];
      } else if i >= |a| {
        assert (a + b)[i] == b[i - |a|] && (a + b)[j] == b[j - |a|];
      } else {
        assert (a + b)[i] == a[i] && (a + b)[j] == b[j - |a|];
      }
    }
  }

  /** The category codes are exactly the thirty the picker lists:
      "000", A01-A09, F01-F10, T01-T04, S01-S04, L01 and SE1. */
  lemma CategoryCodes()
    ensures CATEGORY_NAME.Keys == set c | c in CATEGORY_OPTIONS
    ensures |CATEGORY_NAME| == 30
  {
    CategoryKeysListed();
    CategoryOptionsDistinct();
    DistinctCardinality(CATEGORY_OPTIONS);
    assert |CATEGORY_NAME.Keys| == 30;
  }

  /** No severity name holds a tab or a newline, so each fits one column
      of an exported line. */
  lemma SeverityNamesFitColumns(c: string)
    requires c in SEVERITY_NAME
    ensures '\t' !in SEVERITY_NAME[c] && '\n' !in SEVERITY_NAME[c]
  {
  }

  /** Two different codes share a name only for S01 and S03, so the table
      has no inverse. */
  lemma CategoryCollision(c1: string, c2: string)
    requires c1 in CATEGORY_NAME && c2 in CATEGORY_NAME && c1 != c2
    ensures CATEGORY_NAME[c1] == CATEGORY_NAME[c2] <==> {c1, c2} == {"S01", "S03"}
  {
    if CATEGORY_NAME[c1] == CATEGORY_NAME[c2] {
      NameDeterminesCode(c1);
      NameDeterminesCode(c2);
    }
    if {c1, c2} == {"S01", "S03"} {
      assert c1 in {"S01", "S03"} && c2 in {"S01", "S03"};
    }
  }

  /** S03 folded onto S01, the one pair of codes the table names alike. */
  function CanonicalCode(c: string): string
  {
    if c == "S03" then "S01" else c
  }

  /** The table read backwards, S03 folded onto S01. */
  const NAME_CODE: map<string, string> := map[
    "no-error" := "000",
    "Accuracy/Mistranslation" := "A01",
    "Accuracy/PositiveNegative" := "A02",
    "Accuracy/Numbers" := "A03",
    "Accuracy/Pronoun" := "A04",
    "Accuracy/UniqueNoun" := "A05",
    "Accuracy/Omission" := "A06",
    "Accuracy/Addition" := "A07",
    "Accuracy/Untranslated" := "A08",
    "Accuracy/Others" := "A09",
    "Fluency/Spelling" := "F01",
    "Fluency/WrongKanji" := "F02",
    "Fluency/Grammar" := "F03",
    "Fluency/Misuse" := "F04",
    "Fluency/Collocation" := "F05",
    "Fluency/GrammarRegister" := "F06",
    "Fluency/Ambiguity" := "F07",
    "Fluency/Unintelligible" := "F08",
    "Fluency/Symbols" := "F09",
    "Fluency/Others" := "F10",
    "Terminology/Termbase" := "T01",
    "Terminology/Domain" := "T02",
    "Terminology/Inconsistent" := "T03",
    "Terminology/Others" := "T04",
    "Style/Inconsistent" := "S01",
    "Style/Register" := "S02",
    "Style/Others" := "S04",
    "LocaleConvention" := "L01",
    "SourceError" := "SE1"
  ]

  /** Every name of the table determines its code up to the S01/S03 pair. */
  lemma NameDeterminesCode(c: string)
    requires c in CATEGORY_NAME
    ensures CATEGORY_NAME[c] in NAME_CODE && NAME_CODE[CATEGORY_NAME[c]] == CanonicalCode(c)
  {
  }

  lemma SeverityCodes()
    ensures SEVERITY_NAME.Keys == {"no-error", "critical", "minor", "major", "not-judgeable"}
    ensures |SEVERITY_NAME| == 5
    ensures SEVERITY_NAME["critical"] == "Critical"
  {
  }

  /** Every code a picker offers is a key of its table, and every key is
      offered: a marking made through the pickers always exports. */
  lemma PickerCodesExport()
    ensures forall c :: c in CATEGORY_OPTIONS <==> c in CATEGORY_NAME
    ensures forall c :: c in SEVERITY_OPTIONS <==> c in SEVERITY_NAME
  {
  }
}
