/**
 * The column suggestion of `ColumnSelector`
 * (src/components/ColumnSelector.tsx): every column name is scored by the
 * total length of the date or value keywords it contains, the best date
 * column and the best other value column are picked left to right, simple
 * fallbacks fill in what no keyword found, and a confidence figure decides
 * whether the suggestion pre-fills the page's empty selections.
 */
module ColumnSuggestion {
  import opened Wrappers
  import IndexPage

  const DateKeywords: seq<string> :=
    ["date", "time", "timestamp", "datetime", "created", "updated", "day", "month", "year"]

  const ValueKeywords: seq<string> :=
    ["value", "amount", "price", "cost", "revenue", "temperature", "pressure", "humidity",
     "speed", "count", "total", "sum", "avg", "mean"]

  /** A keyword is matched against lowercased names, so it must be non-empty and lowercase to mean anything. */
  ghost predicate UsableKeywords(keywords: seq<string>) {
    forall i :: 0 <= i < |keywords| ==> |keywords[i]| > 0 && Lower(keywords[i]) == keywords[i]
  }

  /** Both keyword lists are non-empty lowercase words, and no date keyword is a value keyword. */
  lemma KeywordLists()
    ensures UsableKeywords(DateKeywords) && UsableKeywords(ValueKeywords)
    ensures forall i, j :: 0 <= i < |DateKeywords| && 0 <= j < |ValueKeywords| ==> DateKeywords[i] != ValueKeywords[j]
  {
    forall i | 0 <= i < |DateKeywords| ensures |DateKeywords[i]| > 0 && Lower(DateKeywords[i]) == DateKeywords[i] {
      LowerOfLowercase(DateKeywords[i]);
    }
    forall i | 0 <= i < |ValueKeywords| ensures |ValueKeywords[i]| > 0 && Lower(ValueKeywords[i]) == ValueKeywords[i] {
      LowerOfLowercase(ValueKeywords[i]);
    }
  }

  /** A word without capital letters is its own lowercase. */
  lemma LowerOfLowercase(s: string)
    requires forall i :: 0 <= i < |s| ==> !('A' <= s[i] <= 'Z')
    ensures Lower(s) == s
  {
  }

  // --- Scores ----------------------------------------------------------------

  /** `toLowerCase` on ASCII letters. */
  function LowerChar(c: char): char {
    if 'A' <= c <= 'Z' then (c as int + 32) as char else c
  }

  function Lower(s: string): (r: string)
    ensures |r| == |s|
  {
    seq(|s|, i requires 0 <= i < |s| => LowerChar(s[i]))
  }

  /** `s.includes(k)`. */
  predicate Contains(s: string, k: string)
    decreases |s|
  {
    k <= s || (|s| > 0 && Contains(s[1..], k))
  }

  /** `k` occurs in `s` starting at position `i`. */
  ghost predicate OccursAt(s: string, k: string, i: int) {
    0 <= i && i + |k| <= |s| && s[i..i + |k|] == k
  }

  /** Contains finds `k` as a contiguous piece of `s`, and only then. */
  lemma {:induction false} ContainsIff(s: string, k: string)
    ensures Contains(s, k) <==> exists i :: OccursAt(s, k, i)
  {
    if k <= s {
      assert OccursAt(s, k, 0);
    } else if |s| > 0 {
      ContainsIff(s[1..], k);
      if exists i :: OccursAt(s, k, i) {
        var i :| OccursAt(s, k, i);
        assert i != 0;
        assert s[1..][i - 1..i - 1 + |k|] == s[i..i + |k|];
        assert OccursAt(s[1..], k, i - 1);
      }
      if Contains(s[1..], k) {
        var i :| OccursAt(s[1..], k, i);
        assert s[i + 1..i + 1 + |k|] == s[1..][i..i + |k|];
        assert OccursAt(s, k, i + 1);
      }
    } else {
      assert |k| > 0;
    }
  }

  /** A keyword with a character the name lacks does not occur in it. */
  lemma MissingCharacter(s: string, k: string, c: char)
    requires c in k && c !in s
    ensures !Contains(s, k)
  {
    ContainsIff(s, k);
  }

  /** The total length of the keywords that occur in the lowercased name, counted left to right. */
  function KeywordScore(colLower: string, keywords: seq<string>): nat
  {
    if |keywords| == 0 then 0
    else
      var k := keywords[|keywords| - 1];
      KeywordScore(colLower, keywords[..|keywords| - 1]) + (if Contains(colLower, k) then |k| else 0)
  }

  /** Every keyword found adds at least its own length. */
  lemma {:induction false} KeywordScoreAtLeast(colLower: string, keywords: seq<string>, i: nat)
    requires i < |keywords| && Contains(colLower, keywords[i])
    ensures KeywordScore(colLower, keywords) >= |keywords[i]|
  {
    var n := |keywords|;
    if i < n - 1 {
      KeywordScoreAtLeast(colLower, keywords[..n - 1], i);
    }
  }

  /** With non-empty keywords, the score is zero exactly when no keyword occurs. */
  lemma {:induction false} KeywordScoreZero(colLower: string, keywords: seq<string>)
    requires forall i :: 0 <= i < |keywords| ==> |keywords[i]| > 0
    ensures KeywordScore(colLower, keywords) == 0
        <==> forall i :: 0 <= i < |keywords| ==> !Contains(colLower, keywords[i])
  {
    var n := |keywords|;
    if n > 0 {
      KeywordScoreZero(colLower, keywords[..n - 1]);
      forall i | 0 <= i < n && Contains(colLower, keywords[i])
        ensures KeywordScore(colLower, keywords) > 0
      {
        KeywordScoreAtLeast(colLower, keywords, i);
      }
    }
  }

  /** When exactly one keyword occurs, the score is its length. */
  lemma {:induction false} KeywordScoreOnly(colLower: string, keywords: seq<string>, i: nat)
    requires i < |keywords| && Contains(colLower, keywords[i])
    requires forall j :: 0 <= j < |keywords| && j != i ==> !Contains(colLower, keywords[j])
    ensures KeywordScore(colLower, keywords) == |keywords[i]|
  {
    var n := |keywords|;
    var front := keywords[..n - 1];
    if i < n - 1 {
      KeywordScoreOnly(colLower, front, i);
    } else {
      assert forall j :: 0 <= j < |front| ==> front[j] == keywords[j];
      assert KeywordScore(colLower, front) == 0 by {
        KeywordScoreNone(colLower, front);
      }
    }
  }

  lemma {:induction false} KeywordScoreNone(colLower: string, keywords: seq<string>)
    requires forall j :: 0 <= j < |keywords| ==> !Contains(colLower, keywords[j])
    ensures KeywordScore(colLower, keywords) == 0
  {
    if |keywords| > 0 {
      KeywordScoreNone(colLower, keywords[..|keywords| - 1]);
    }
  }

  function Score(column: string, keywords: seq<string>): nat {
    KeywordScore(Lower(column), keywords)
  }

  /** An unnamed column scores nothing: only an empty keyword occurs in `''`, and it adds 0. */
  lemma {:induction false} EmptyNameScoresZero(keywords: seq<string>)
    ensures Score("", keywords) == 0
  {
    assert Lower("") == "";
    if |keywords| > 0 {
      EmptyNameScoresZero(keywords[..|keywords| - 1]);
    }
  }

  // --- The two loops ---------------------------------------------------------

  /** The loop state: the best column so far and its score. */
  datatype Pick = Pick(column: string, score: nat)

  /**
   * The result of `columns.forEach(...)` keeping the first column with a
   * strictly higher score than the best so far, starting from `''` and 0;
   * the value loop passes the date column as `skip`.
   */
  function Best(columns: seq<string>, keywords: seq<string>, skip: Option<string>): Pick
  {
    if |columns| == 0 then Pick("", 0)
    else
      var before := Best(columns[..|columns| - 1], keywords, skip);
      var c := columns[|columns| - 1];
      if Some(c) != skip && Score(c, keywords) > before.score then Pick(c, Score(c, keywords)) else before
  }

  /** Position `i` holds the earliest column, not skipped, with the highest score `score`. */
  ghost predicate EarliestBest(columns: seq<string>, keywords: seq<string>, skip: Option<string>, i: int, score: nat) {
    && 0 <= i < |columns|
    && Some(columns[i]) != skip
    && Score(columns[i], keywords) == score
    && forall j :: 0 <= j < i && Some(columns[j]) != skip ==> Score(columns[j], keywords) < score
  }

  /**
   * What the loop computes: no column that is not skipped scores above the
   * pick; a positive pick is the earliest column with the highest score;
   * when nothing scores, the pick stays `''`.
   */
  lemma {:induction false} BestSpec(columns: seq<string>, keywords: seq<string>, skip: Option<string>)
    ensures var p := Best(columns, keywords, skip);
            && (forall i :: 0 <= i < |columns| && Some(columns[i]) != skip ==> Score(columns[i], keywords) <= p.score)
            && (p.score == 0 ==> p.column == "")
            && (p.score > 0 ==> exists i :: EarliestBest(columns, keywords, skip, i, p.score) && columns[i] == p.column)
  {
    if |columns| > 0 {
      var n := |columns|;
      var front := columns[..n - 1];
      BestSpec(front, keywords, skip);
      var before := Best(front, keywords, skip);
      var c := columns[n - 1];
      if Some(c) != skip && Score(c, keywords) > before.score {
        assert EarliestBest(columns, keywords, skip, n - 1, Score(c, keywords)) by {
          forall j | 0 <= j < n - 1 && Some(columns[j]) != skip ensures Score(columns[j], keywords) < Score(c, keywords) {
            assert columns[j] == front[j];
          }
        }
      } else if before.score > 0 {
        var i :| EarliestBest(front, keywords, skip, i, before.score) && front[i] == before.column;
        assert EarliestBest(columns, keywords, skip, i, before.score) by {
          forall j | 0 <= j < i && Some(columns[j]) != skip ensures Score(columns[j], keywords) < before.score {
            assert columns[j] == front[j];
          }
        }
      }
      forall i | 0 <= i < n - 1 && Some(columns[i]) != skip ensures Score(columns[i], keywords) <= Best(columns, keywords, skip).score {
        assert columns[i] == front[i];
      }
    }
  }

  /** One `forEach` loop of the effect. */
  method PickBest(columns: seq<string>, keywords: seq<string>, skip: Option<string>) returns (best: string, score: nat)
    ensures Pick(best, score) == Best(columns, keywords, skip)
  {
    best, score := "", 0;
    for i := 0 to |columns|
      invariant Pick(best, score) == Best(columns[..i], keywords, skip)
    {
      assert columns[..i + 1][..i] == columns[..i];
      var col := columns[i];
      if Some(col) != skip {
        var colScore := KeywordScore(Lower(col), keywords);
        if colScore > score {
          score := colScore;
          best := col;
        }
      }
    }
    assert columns[..|columns|] == columns;
  }

  // --- Fallbacks and confidence ----------------------------------------------

  /** The first column that differs from `d`, as `find` returns it; `None` for `undefined`. */
  function FindOther(columns: seq<string>, d: string): (r: Option<string>)
    ensures r.Some? ==> r.value in columns && r.value != d
    ensures r.None? ==> forall i :: 0 <= i < |columns| ==> columns[i] == d
  {
    if |columns| == 0 then None
    else if columns[0] != d then Some(columns[0])
    else FindOther(columns[1..], d)
  }

  /** Position `i` holds the first column that differs from `d`. */
  ghost predicate FirstOther(columns: seq<string>, d: string, i: int) {
    0 <= i < |columns| && columns[i] != d && forall j :: 0 <= j < i ==> columns[j] == d
  }

  /** `find` stops at the first column that differs from `d`. */
  lemma {:induction false} FindOtherFirst(columns: seq<string>, d: string)
    ensures FindOther(columns, d).Some? ==>
              exists i :: FirstOther(columns, d, i) && columns[i] == FindOther(columns, d).value
  {
    if |columns| > 0 {
      if columns[0] != d {
        assert FirstOther(columns, d, 0);
      } else {
        FindOtherFirst(columns[1..], d);
        if FindOther(columns[1..], d).Some? {
          var i :| FirstOther(columns[1..], d, i) && columns[1..][i] == FindOther(columns[1..], d).value;
          assert FirstOther(columns, d, i + 1);
        }
      }
    }
  }

  /** Ten points per unit of combined score on top of 50, capped at 95. */
  function Confidence(dateScore: nat, valueScore: nat): (c: int)
    ensures 50 <= c <= 95
    ensures c > 70 <==> dateScore + valueScore >= 3
  {
    var raw := (dateScore + valueScore) * 10 + 50;
    if raw < 95 then raw else 95
  }

  /** The stored suggestion: both column names and the confidence. */
  datatype Suggestion = Suggestion(dateColumn: string, valueColumn: string, confidence: int)

  /** What the effect computes for a non-empty list of columns. */
  function Suggest(columns: seq<string>): Suggestion
    requires |columns| > 0
  {
    SuggestBy(columns, DateKeywords, ValueKeywords)
  }

  /** The effect with the keyword lists as parameters. */
  function SuggestBy(columns: seq<string>, dateKeywords: seq<string>, valueKeywords: seq<string>): Suggestion
    requires |columns| > 0
  {
    var date := Best(columns, dateKeywords, None);
    var value := Best(columns, valueKeywords, Some(date.column));
    var dateColumn := if date.column == "" then columns[0] else date.column;
    var valueColumn :=
      if value.column == "" && |columns| > 1 then
        (match FindOther(columns, dateColumn)
         case Some(c) => if c != "" then c else columns[1]
         case None => columns[1])
      else value.column;
    Suggestion(dateColumn, valueColumn, Confidence(date.score, value.score))
  }

  /** The effect's computation, statement by statement. */
  method SuggestColumns(columns: seq<string>) returns (s: Suggestion)
    requires |columns| > 0
    ensures s == Suggest(columns)
  {
    var bestDateColumn, dateScore := PickBest(columns, DateKeywords, None);
    var bestValueColumn, valueScore := PickBest(columns, ValueKeywords, Some(bestDateColumn));
    if bestDateColumn == "" {
      bestDateColumn := columns[0];
    }
    if bestValueColumn == "" && |columns| > 1 {
      var found := FindOther(columns, bestDateColumn);
      bestValueColumn := if found.Some? && found.value != "" then found.value else columns[1];
    }
    s := Suggestion(bestDateColumn, bestValueColumn, Confidence(dateScore, valueScore));
  }

  /**
   * The auto-select step: above a confidence of 70, a non-empty suggestion
   * fills a selection only when it is empty, and never overwrites one.
   */
  function AutoFill(current: string, suggested: string, confidence: int): (r: string)
    ensures current != "" ==> r == current
    ensures r == current || r == suggested
    ensures r != current <==> confidence > 70 && suggested != "" && current == ""
  {
    if confidence > 70 && suggested != "" && current == "" then suggested else current
  }

  // --- Properties of the suggestion ------------------------------------------

  /**
   * The date suggestion is the earliest best-scoring date column, or the
   * first column when no date keyword occurs anywhere.
   */
  lemma DateSuggestion(columns: seq<string>, dateKeywords: seq<string>, valueKeywords: seq<string>)
    requires |columns| > 0
    ensures var s, d := SuggestBy(columns, dateKeywords, valueKeywords), Best(columns, dateKeywords, None);
            && (d.score > 0 ==> exists i :: EarliestBest(columns, dateKeywords, None, i, d.score) && columns[i] == s.dateColumn)
            && (d.score == 0 ==> s.dateColumn == columns[0])
  {
    BestSpec(columns, dateKeywords, None);
    EmptyNameScoresZero(dateKeywords);
  }

  /**
   * The value loop never picks the date loop's column: a value column found
   * by keyword is the earliest best-scoring column other than it.
   */
  lemma ValueSuggestion(columns: seq<string>, dateKeywords: seq<string>, valueKeywords: seq<string>)
    requires |columns| > 0
    ensures var s, d := SuggestBy(columns, dateKeywords, valueKeywords), Best(columns, dateKeywords, None);
            var v := Best(columns, valueKeywords, Some(d.column));
            v.score > 0 ==> (&& s.valueColumn != d.column
                             && exists i :: EarliestBest(columns, valueKeywords, Some(d.column), i, v.score)
                                            && columns[i] == s.valueColumn)
  {
    var d := Best(columns, dateKeywords, None);
    var v := Best(columns, valueKeywords, Some(d.column));
    BestSpec(columns, valueKeywords, Some(d.column));
    EmptyNameScoresZero(valueKeywords);
    if v.score > 0 {
      var i :| EarliestBest(columns, valueKeywords, Some(d.column), i, v.score) && columns[i] == v.column;
      assert v.column != "";
      assert SuggestBy(columns, dateKeywords, valueKeywords).valueColumn == v.column;
    }
  }

  /**
   * When no value keyword scores, the value suggestion falls back: with one
   * column it stays `''`; otherwise it is the first column other than the
   * date suggestion, or the second column when that one is unnamed or every
   * column equals the date suggestion.
   */
  lemma ValueFallback(columns: seq<string>, dateKeywords: seq<string>, valueKeywords: seq<string>)
    requires |columns| > 0
    ensures var s, d := SuggestBy(columns, dateKeywords, valueKeywords), Best(columns, dateKeywords, None);
            Best(columns, valueKeywords, Some(d.column)).score == 0 ==>
              && (|columns| == 1 ==> s.valueColumn == "")
              && (|columns| > 1 ==>
                    || (exists i :: FirstOther(columns, s.dateColumn, i) && columns[i] != "" && s.valueColumn == columns[i])
                    || ((forall i :: FirstOther(columns, s.dateColumn, i) ==> columns[i] == "") && s.valueColumn == columns[1]))
  {
    var s, d := SuggestBy(columns, dateKeywords, valueKeywords), Best(columns, dateKeywords, None);
    BestSpec(columns, valueKeywords, Some(d.column));
    FindOtherFirst(columns, s.dateColumn);
  }

  /**
   * With a date keyword found, at least two names, none empty, and some name
   * other than the date column, the two suggestions differ.
   */
  lemma DistinctWhenDateFound(columns: seq<string>, dateKeywords: seq<string>, valueKeywords: seq<string>)
    requires |columns| > 1
    requires forall i :: 0 <= i < |columns| ==> columns[i] != ""
    requires Best(columns, dateKeywords, None).score > 0
    requires exists i :: 0 <= i < |columns| && columns[i] != Best(columns, dateKeywords, None).column
    ensures SuggestBy(columns, dateKeywords, valueKeywords).dateColumn
         != SuggestBy(columns, dateKeywords, valueKeywords).valueColumn
  {
    var d := Best(columns, dateKeywords, None);
    BestSpec(columns, dateKeywords, None);
    BestSpec(columns, valueKeywords, Some(d.column));
  }

  /** With at least two columns, none of them unnamed, both suggestions are names. */
  lemma SuggestionsAreNames(columns: seq<string>, dateKeywords: seq<string>, valueKeywords: seq<string>)
    requires |columns| > 1
    requires forall i :: 0 <= i < |columns| ==> columns[i] != ""
    ensures SuggestBy(columns, dateKeywords, valueKeywords).dateColumn != ""
    ensures SuggestBy(columns, dateKeywords, valueKeywords).valueColumn != ""
  {
    var d := Best(columns, dateKeywords, None);
    BestSpec(columns, dateKeywords, None);
    BestSpec(columns, valueKeywords, Some(d.column));
  }

  /**
   * Fallback picks add nothing to the confidence: when no column contains a
   * keyword of either list, the confidence is 50 and nothing is pre-filled.
   */
  lemma FallbacksScoreNothing(columns: seq<string>, dateKeywords: seq<string>, valueKeywords: seq<string>)
    requires |columns| > 0
    requires forall i :: 0 <= i < |columns| ==> Score(columns[i], dateKeywords) == 0
    requires forall i :: 0 <= i < |columns| ==> Score(columns[i], valueKeywords) == 0
    ensures SuggestBy(columns, dateKeywords, valueKeywords).confidence == 50
  {
    var d := Best(columns, dateKeywords, None);
    BestSpec(columns, dateKeywords, None);
    BestSpec(columns, valueKeywords, Some(d.column));
  }

  /**
   * Without a date keyword the fallback runs after the value loop, so both
   * suggestions can name the same column: `["amount", "x"]` suggests
   * "amount" twice, with confidence 95.
   */
  lemma SameColumnTwice()
    ensures Suggest(["amount", "x"]) == Suggestion("amount", "amount", 95)
  {
    DateBestOfExample();
    ValueBestOfExample();
  }

  lemma DateBestOfExample()
    ensures Best(["amount", "x"], DateKeywords, None) == Pick("", 0)
  {
    var columns := ["amount", "x"];
    assert Lower("amount") == "amount";
    assert Lower("x") == "x";
    NoDateKeywordIn("amount");
    NoDateKeywordIn("x");
    assert columns[..1] == ["amount"];
    assert ["amount"][..0] == [];
  }

  lemma ValueBestOfExample()
    ensures Best(["amount", "x"], ValueKeywords, Some("")) == Pick("amount", 6)
  {
    var columns := ["amount", "x"];
    assert Lower("amount") == "amount";
    assert Lower("x") == "x";
    AmountScore();
    forall j | 0 <= j < |ValueKeywords| ensures !Contains("x", ValueKeywords[j]) {
      if j < 7 { ValueKeywordMissingFromX(j); } else { LateValueKeywordMissingFromX(j); }
    }
    KeywordScoreNone("x", ValueKeywords);
    assert columns[..1] == ["amount"];
    assert ["amount"][..0] == [];
  }

  /** Neither "amount" nor "x" contains a date keyword. */
  lemma NoDateKeywordIn(s: string)
    requires s == "amount" || s == "x"
    ensures KeywordScore(s, DateKeywords) == 0
  {
    forall j | 0 <= j < |DateKeywords| ensures !Contains(s, DateKeywords[j]) {
      DateKeywordMissing(s, j);
    }
    KeywordScoreNone(s, DateKeywords);
  }

  lemma DateKeywordMissing(s: string, j: int)
    requires s == "amount" || s == "x"
    requires 0 <= j < |DateKeywords|
    ensures !Contains(s, DateKeywords[j])
  {
    if j == 0 { MissingCharacter(s, "date", 'd'); }
    else if j == 1 { MissingCharacter(s, "time", 'i'); }
    else if j == 2 { MissingCharacter(s, "timestamp", 'i'); }
    else if j == 3 { MissingCharacter(s, "datetime", 'd'); }
    else if j == 4 { MissingCharacter(s, "created", 'c'); }
    else if j == 5 { MissingCharacter(s, "updated", 'p'); }
    else if j == 6 { MissingCharacter(s, "day", 'd'); }
    else if j == 7 { MissingCharacter(s, "month", 'h'); }
    else { MissingCharacter(s, "year", 'y'); }
  }

  lemma ValueKeywordMissingFromX(j: int)
    requires 0 <= j < 7
    ensures !Contains("x", ValueKeywords[j])
  {
    if j == 0 { MissingCharacter("x", "value", 'v'); }
    else if j == 1 { MissingCharacter("x", "amount", 'a'); }
    else if j == 2 { MissingCharacter("x", "price", 'p'); }
    else if j == 3 { MissingCharacter("x", "cost", 'c'); }
    else if j == 4 { MissingCharacter("x", "revenue", 'r'); }
    else if j == 5 { MissingCharacter("x", "temperature", 't'); }
    else { MissingCharacter("x", "pressure", 'p'); }
  }

  lemma LateValueKeywordMissingFromX(j: int)
    requires 7 <= j < |ValueKeywords|
    ensures !Contains("x", ValueKeywords[j])
  {
    if j == 7 { MissingCharacter("x", "humidity", 'h'); }
    else if j == 8 { MissingCharacter("x", "speed", 's'); }
    else if j == 9 { MissingCharacter("x", "count", 'c'); }
    else if j == 10 { MissingCharacter("x", "total", 't'); }
    else if j == 11 { MissingCharacter("x", "sum", 's'); }
    else if j == 12 { MissingCharacter("x", "avg", 'a'); }
    else { MissingCharacter("x", "mean", 'm'); }
  }

  lemma AmountScore()
    ensures KeywordScore("amount", ValueKeywords) == 6
  {
    var s := "amount";
    forall j | 0 <= j < |ValueKeywords| && j != 1 ensures !Contains(s, ValueKeywords[j]) {
      if j < 7 { ValueKeywordMissingFromAmount(j); } else { LateValueKeywordMissingFromAmount(j); }
    }
    assert ValueKeywords[1] == s;
    assert s <= s;
    KeywordScoreOnly(s, ValueKeywords, 1);
  }

  lemma ValueKeywordMissingFromAmount(j: int)
    requires 0 <= j < 7 && j != 1
    ensures !Contains("amount", ValueKeywords[j])
  {
    var s := "amount";
    if j == 0 { MissingCharacter(s, "value", 'v'); }
    else if j == 2 { MissingCharacter(s, "price", 'p'); }
    else if j == 3 { MissingCharacter(s, "cost", 'c'); }
    else if j == 4 { MissingCharacter(s, "revenue", 'r'); }
    else if j == 5 { MissingCharacter(s, "temperature", 'p'); }
    else { MissingCharacter(s, "pressure", 'p'); }
  }

  lemma LateValueKeywordMissingFromAmount(j: int)
    requires 7 <= j < |ValueKeywords|
    ensures !Contains("amount", ValueKeywords[j])
  {
    var s := "amount";
    if j == 7 { MissingCharacter(s, "humidity", 'h'); }
    else if j == 8 { MissingCharacter(s, "speed", 's'); }
    else if j == 9 { MissingCharacter(s, "count", 'c'); }
    else if j == 10 { MissingCharacter(s, "total", 'l'); }
    else if j == 11 { MissingCharacter(s, "sum", 's'); }
    else if j == 12 { MissingCharacter(s, "avg", 'v'); }
    else { MissingCharacter(s, "mean", 'e'); }
  }

  // --- The component ---------------------------------------------------------

  /** The component's own state; the selections live in the page. */
  class ColumnSelector {
    var aiSuggestions: Option<Suggestion>

    constructor ()
      ensures aiSuggestions == None
    {
      aiSuggestions := None;
    }

    /**
     * The `useEffect` body: for a non-empty column list, store the
     * suggestion and, when its confidence exceeds 70, fill in the empty
     * selections through `onDateColumnChange` / `onValueColumnChange`.
     */
    method SuggestionEffect(page: IndexPage.Page)
      modifies this, page
      ensures |page.columns| == 0 ==> aiSuggestions == old(aiSuggestions)
      ensures |page.columns| == 0 ==> page.selectedDateColumn == old(page.selectedDateColumn)
      ensures |page.columns| == 0 ==> page.selectedValueColumn == old(page.selectedValueColumn)
      ensures |page.columns| > 0 ==>
                (var s := Suggest(page.columns);
                 && aiSuggestions == Some(s)
                 && page.selectedDateColumn == AutoFill(old(page.selectedDateColumn), s.dateColumn, s.confidence)
                 && page.selectedValueColumn == AutoFill(old(page.selectedValueColumn), s.valueColumn, s.confidence))
      ensures page.columns == old(page.columns) && page.csvData == old(page.csvData)
      ensures page.processedData == old(page.processedData) && page.sensitivity == old(page.sensitivity)
    {
      if |page.columns| > 0 {
        var s := SuggestColumns(page.columns);
        aiSuggestions := Some(s);
        if s.confidence > 70 {
          if s.dateColumn != "" && page.selectedDateColumn == "" {
            page.selectedDateColumn := s.dateColumn;
          }
          if s.valueColumn != "" && page.selectedValueColumn == "" {
            page.selectedValueColumn := s.valueColumn;
          }
        }
      }
    }

    /** `applySuggestions`: overwrite both selections when there is a suggestion. */
    method ApplySuggestions(page: IndexPage.Page)
      modifies page
      ensures aiSuggestions.Some? ==>
                (page.selectedDateColumn == aiSuggestions.value.dateColumn
                 && page.selectedValueColumn == aiSuggestions.value.valueColumn)
      ensures aiSuggestions.None? ==>
                (page.selectedDateColumn == old(page.selectedDateColumn)
                 && page.selectedValueColumn == old(page.selectedValueColumn))
      ensures page.columns == old(page.columns) && page.csvData == old(page.csvData)
      ensures page.processedData == old(page.processedData) && page.sensitivity == old(page.sensitivity)
    {
      if aiSuggestions.Some? {
        page.selectedDateColumn := aiSuggestions.value.dateColumn;
        page.selectedValueColumn := aiSuggestions.value.valueColumn;
      }
    }
  }

  /** `canProcess`: both selections are non-empty. */
  predicate CanProcess(page: IndexPage.Page)
    reads page
  {
    page.selectedDateColumn != "" && page.selectedValueColumn != ""
  }

  /**
   * The process button is enabled by the selections alone; the page's
   * handler also needs data, so a click detects exactly when both hold.
   */
  lemma ProcessButtonGuard(page: IndexPage.Page)
    ensures CanProcess(page) && |page.csvData| > 0
        <==> IndexPage.CanDetect(page.csvData, page.selectedDateColumn, page.selectedValueColumn)
  {
  }
}
