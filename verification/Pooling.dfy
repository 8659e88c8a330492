/** Comparing two systems over paired questions, and pooling runs with disjoint questions. Dictionaries are maps, so
    the order of their keys is not kept. */
module Pooling {
  import opened Text
  import McNemar
  import Wilson

  datatype Row = Row(questionId: string, system: string, category: string, correct: bool, error: bool)

  /** Right or wrong, by question. */
  type Marks = map<string, bool>

  datatype Report = Report(path: string, rows: seq<Row>)

  const ABSTENTION: string := "abstention"

  function Ids(rows: seq<Row>): set<string> {
    set row | row in rows :: row.questionId
  }

  /** A dictionary comprehension: a later row replaces an earlier one. */
  function Scores(rows: seq<Row>, system: string): Marks
    decreases |rows|
  {
    if rows == [] then map[]
    else
      var earlier, row := Scores(rows[..|rows| - 1], system), rows[|rows| - 1];
      if row.system == system then earlier[row.questionId := row.correct] else earlier
  }

  function Categories(rows: seq<Row>): map<string, string>
    decreases |rows|
  {
    if rows == [] then map[]
    else
      var row := rows[|rows| - 1];
      Categories(rows[..|rows| - 1])[row.questionId := row.category]
  }

  function FailedQuestions(rows: seq<Row>): set<string> {
    set row | row in rows && row.error :: row.questionId
  }

  function RowsWithError(rows: seq<Row>): nat
    decreases |rows|
  {
    if rows == [] then 0 else (if rows[0].error then 1 else 0) + RowsWithError(rows[1..])
  }

  function Restrict(scores: Marks, keys: set<string>): Marks {
    map k | k in scores && k in keys :: scores[k]
  }

  // ----- Paired comparison -----

  datatype Counts = Counts(
    paired: int, both: int, neither: int, onlyFirst: int, onlySecond: int, firstCorrect: int, secondCorrect: int)

  function Add(a: Counts, b: Counts): Counts {
    Counts(a.paired + b.paired, a.both + b.both, a.neither + b.neither, a.onlyFirst + b.onlyFirst,
           a.onlySecond + b.onlySecond, a.firstCorrect + b.firstCorrect, a.secondCorrect + b.secondCorrect)
  }

  const ZERO: Counts := Counts(0, 0, 0, 0, 0, 0, 0)

  /** The questions both answered, the first as `a` and the second as `b`. */
  function Cell(ours: Marks, theirs: Marks, a: bool, b: bool): set<string> {
    set k | k in ours && k in theirs && ours[k] == a && theirs[k] == b
  }

  function Shared(ours: Marks, theirs: Marks): set<string> {
    set k | k in ours && k in theirs
  }

  /** What the comparison of two dictionaries counts, over the questions both answered. */
  function PairedCounts(first: Marks, second: Marks): Counts {
    var paired := |Shared(first, second)|;
    var onlyFirst, onlySecond := |Cell(first, second, true, false)|, |Cell(first, second, false, true)|;
    var both := |Cell(first, second, true, true)|;
    Counts(paired, both, paired - both - onlyFirst - onlySecond, onlyFirst, onlySecond, |Correct(first)|,
           |Correct(second)|)
  }

  function Correct(scores: Marks): set<string> {
    set k | k in scores && scores[k]
  }

  function Tally(ours: Marks, theirs: Marks): Counts {
    var shared := Shared(ours, theirs);
    PairedCounts(Restrict(ours, shared), Restrict(theirs, shared))
  }

  /** The numbers of a report, before they are rounded. `wilson` is the interval of the first system's share, `low` and
      `high` are the margins of the difference. */
  datatype Comparison = Comparison(counts: Counts, discordant: int, pValue: Option<real>, separates: bool,
                                   wilson: Option<Wilson.Interval>, difference: real, low: real, high: real)

  const Z: real := 1.96

  /** The square root that the statistics take of non-negative numbers. */
  type Sqrt = real -> real

  function Radicand(counts: Counts): real {
    if counts.paired <= 0 then 0.0 else Wilson.Radicand(counts.firstCorrect, counts.paired, Z)
  }

  function Compare(ours: Marks, theirs: Marks, sqrt: Sqrt): Comparison {
    var counts := Tally(ours, theirs);
    var p := McNemar.McNemarExact(counts.onlyFirst, counts.onlySecond);
    var total := (if counts.paired == 0 then 1 else counts.paired) as real;
    var difference := (counts.onlyFirst - counts.onlySecond) as real / total;
    var error := sqrt((counts.onlyFirst + counts.onlySecond) as real) / total;
    var wilson := Wilson.WilsonInterval(counts.firstCorrect, counts.paired, Z, sqrt(Radicand(counts)));
    Comparison(counts, counts.onlyFirst + counts.onlySecond, p, p.Some? && p.value < 0.05, wilson,
               difference, difference - Z * error, difference + Z * error)
  }

  lemma UnionSize(a: set<string>, b: set<string>, whole: set<string>)
    requires a !! b && whole == a + b
    ensures |whole| == |a| + |b|
  {}

  lemma SharedIsCells(ours: Marks, theirs: Marks)
    ensures Shared(ours, theirs) == (Cell(ours, theirs, true, true) + Cell(ours, theirs, true, false))
                                  + (Cell(ours, theirs, false, true) + Cell(ours, theirs, false, false))
  {}

  lemma CorrectIsCells(ours: Marks, theirs: Marks)
    ensures Correct(Restrict(ours, Shared(ours, theirs)))
              == Cell(ours, theirs, true, true) + Cell(ours, theirs, true, false)
    ensures Correct(Restrict(theirs, Shared(ours, theirs)))
              == Cell(ours, theirs, true, true) + Cell(ours, theirs, false, true)
  {}

  lemma CellsAreDisjoint(ours: Marks, theirs: Marks)
    ensures Cell(ours, theirs, true, true) !! Cell(ours, theirs, true, false)
    ensures Cell(ours, theirs, false, true) !! Cell(ours, theirs, false, false)
    ensures Cell(ours, theirs, true, true) !! Cell(ours, theirs, false, true)
    ensures Cell(ours, theirs, true, true) + Cell(ours, theirs, true, false)
         !! Cell(ours, theirs, false, true) + Cell(ours, theirs, false, false)
  {}

  lemma RestrictKeepsCells(ours: Marks, theirs: Marks, a: bool, b: bool)
    ensures var s := Shared(ours, theirs);
            Cell(Restrict(ours, s), Restrict(theirs, s), a, b) == Cell(ours, theirs, a, b)
    ensures var s := Shared(ours, theirs); Shared(Restrict(ours, s), Restrict(theirs, s)) == s
  {}

  /** The four cells partition the paired questions, so no count is negative, and the difference of the totals is that
      of the disagreements. */
  lemma CellsPartition(ours: Marks, theirs: Marks)
    ensures var c := Tally(ours, theirs);
            && c == Counts(|Shared(ours, theirs)|, |Cell(ours, theirs, true, true)|, |Cell(ours, theirs, false, false)|,
                           |Cell(ours, theirs, true, false)|, |Cell(ours, theirs, false, true)|,
                           c.firstCorrect, c.secondCorrect)
            && c.both + c.neither + c.onlyFirst + c.onlySecond == c.paired
            && c.firstCorrect == c.both + c.onlyFirst
            && c.secondCorrect == c.both + c.onlySecond
            && c.firstCorrect - c.secondCorrect == c.onlyFirst - c.onlySecond
  {
    hide Cell, Shared, Correct, Restrict;
    var tt, tf := Cell(ours, theirs, true, true), Cell(ours, theirs, true, false);
    var ft, ff := Cell(ours, theirs, false, true), Cell(ours, theirs, false, false);
    SharedIsCells(ours, theirs);
    CorrectIsCells(ours, theirs);
    CellsAreDisjoint(ours, theirs);
    UnionSize(tt, tf, tt + tf);
    UnionSize(ft, ff, ft + ff);
    UnionSize(tt, ft, tt + ft);
    UnionSize(tt + tf, ft + ff, tt + tf + (ft + ff));
    RestrictKeepsCells(ours, theirs, true, true);
    RestrictKeepsCells(ours, theirs, true, false);
    RestrictKeepsCells(ours, theirs, false, true);
  }

  /** So neither statistic refuses its counts, the difference reported is that of the shares of correct answers, and
      with a true square root the interval is the score set of the first share and the margins enclose the
      difference. */
  lemma CompareNeverRefuses(ours: Marks, theirs: Marks, sqrt: Sqrt, share: real)
    requires forall x :: x >= 0.0 ==> Wilson.IsRoot(sqrt(x), x)
    ensures var c := Compare(ours, theirs, sqrt);
            var n := c.counts.paired;
            && c.pValue == Some(McNemar.Chance(c.counts.onlyFirst, c.counts.onlySecond))
            && c.wilson.Some?
            && (n > 0 ==>
                  var first, second :=
                      Wilson.Proportion(c.counts.firstCorrect, n), Wilson.Proportion(c.counts.secondCorrect, n);
                  && (Wilson.Within(share, c.wilson.value) <==> Wilson.Score(c.counts.firstCorrect, n, Z, share))
                  && Wilson.Within(first, c.wilson.value) && c.difference == first - second)
            && (n == 0 ==> (Wilson.Within(share, c.wilson.value) <==> 0.0 <= share <= 1.0) && c.difference == 0.0)
            && c.difference - c.low == c.high - c.difference && MarginIs(c)
            && c.discordant == c.counts.onlyFirst + c.counts.onlySecond
            && (c.separates <==> c.pValue.value < 0.05) && (c.separates ==> c.discordant >= 6)
  {
    hide Compare, Tally, Shared, MarginIs;
    hide Wilson.IsRoot, Wilson.Within, Wilson.Score, Wilson.Proportion, Wilson.WilsonInterval;
    ComparisonIsExact(ours, theirs, sqrt);
    ComparisonInterval(ours, theirs, sqrt, share);
    ComparisonMargins(ours, theirs, sqrt);
    ComparisonDifference(ours, theirs, sqrt);
  }

  lemma ComparisonIsExact(ours: Marks, theirs: Marks, sqrt: Sqrt)
    ensures var c := Compare(ours, theirs, sqrt);
            && c.pValue == Some(McNemar.Chance(c.counts.onlyFirst, c.counts.onlySecond))
            && c.discordant == c.counts.onlyFirst + c.counts.onlySecond
            && (c.separates <==> c.pValue.value < 0.05) && (c.separates ==> c.discordant >= 6)
  {
    hide Compare, Tally, Shared;
    var c := Compare(ours, theirs, sqrt);
    CellsPartition(ours, theirs);
    Statistics(ours, theirs, sqrt);
    McNemar.PIsChance(c.counts.onlyFirst, c.counts.onlySecond);
    McNemar.SixDisagreements(c.counts.onlyFirst, c.counts.onlySecond);
  }

  lemma ComparisonInterval(ours: Marks, theirs: Marks, sqrt: Sqrt, share: real)
    requires forall x :: x >= 0.0 ==> Wilson.IsRoot(sqrt(x), x)
    ensures var c := Compare(ours, theirs, sqrt);
            var n := c.counts.paired;
            && c.wilson.Some?
            && (n > 0 ==>
                  && (Wilson.Within(share, c.wilson.value) <==> Wilson.Score(c.counts.firstCorrect, n, Z, share))
                  && Wilson.Within(Wilson.Proportion(c.counts.firstCorrect, n), c.wilson.value))
            && (n == 0 ==> (Wilson.Within(share, c.wilson.value) <==> 0.0 <= share <= 1.0))
  {
    hide Compare, Tally, Shared, Wilson.IsRoot, Wilson.Score, Wilson.Proportion;
    var c := Compare(ours, theirs, sqrt);
    var n := c.counts.paired;
    CellsPartition(ours, theirs);
    Statistics(ours, theirs, sqrt);
    if n == 0 {
      Wilson.NoQuestions(c.counts.firstCorrect, 0, Z, sqrt(Radicand(c.counts)), share);
    } else {
      Wilson.RadicandSign(c.counts.firstCorrect, n, Z);
      Wilson.IntervalIsScoreSet(c.counts.firstCorrect, n, Z, sqrt(Radicand(c.counts)), share);
    }
  }

  lemma ComparisonMargins(ours: Marks, theirs: Marks, sqrt: Sqrt)
    requires forall x :: x >= 0.0 ==> Wilson.IsRoot(sqrt(x), x)
    ensures var c := Compare(ours, theirs, sqrt);
            && c.difference - c.low == c.high - c.difference && MarginIs(c)
  {
    hide Compare, Tally, Shared, Wilson.IsRoot, MarginWidth, Wilson.WilsonInterval;
    var c := Compare(ours, theirs, sqrt);
    CellsPartition(ours, theirs);
    Statistics(ours, theirs, sqrt);
    assert Total(c.counts) > 0.0;
    hide Total;
    Margin(sqrt(c.discordant as real), c.discordant, Total(c.counts), c.difference, c.low, c.high);
  }

  lemma ComparisonDifference(ours: Marks, theirs: Marks, sqrt: Sqrt)
    ensures var c := Compare(ours, theirs, sqrt);
            var n := c.counts.paired;
            && (n > 0 ==>
                  c.difference
                    == Wilson.Proportion(c.counts.firstCorrect, n) - Wilson.Proportion(c.counts.secondCorrect, n))
            && (n == 0 ==> c.difference == 0.0)
  {
    hide Compare, Tally, Shared, Wilson.Proportion, Wilson.WilsonInterval;
    var c := Compare(ours, theirs, sqrt);
    CellsPartition(ours, theirs);
    Statistics(ours, theirs, sqrt);
    ShareDifference(c.counts.firstCorrect, c.counts.secondCorrect, c.counts.paired);
  }

  lemma Statistics(ours: Marks, theirs: Marks, sqrt: Sqrt)
    ensures var c := Compare(ours, theirs, sqrt);
            && c.counts == Tally(ours, theirs) && c.discordant == c.counts.onlyFirst + c.counts.onlySecond
            && c.pValue == McNemar.McNemarExact(c.counts.onlyFirst, c.counts.onlySecond)
            && (c.separates <==> c.pValue.Some? && c.pValue.value < 0.05)
            && c.wilson == Wilson.WilsonInterval(c.counts.firstCorrect, c.counts.paired, Z, sqrt(Radicand(c.counts)))
            && Total(c.counts) != 0.0
            && var error := sqrt(c.discordant as real) / Total(c.counts);
               && c.difference == (c.counts.onlyFirst - c.counts.onlySecond) as real / Total(c.counts)
               && c.low == c.difference - Z * error && c.high == c.difference + Z * error
  {
    hide Tally, Wilson.WilsonInterval, McNemar.McNemarExact, Radicand;
  }

  /** The margins span 2 * 1.96 times the square root of the disagreements, over the questions. */
  predicate MarginIs(c: Comparison) {
    MarginWidth(c.low, c.high, Total(c.counts), c.discordant)
  }

  predicate MarginWidth(low: real, high: real, total: real, discordant: int) {
    low <= high && ((high - low) * total) * ((high - low) * total) == 3.92 * 3.92 * discordant as real
  }

  /** `paired_questions or 1` */
  function Total(counts: Counts): real {
    (if counts.paired == 0 then 1 else counts.paired) as real
  }

  lemma ShareDifference(a: int, b: int, n: nat)
    requires n == 0 ==> a == b
    ensures var d := (a - b) as real / (if n == 0 then 1 else n) as real;
            if n > 0 then d == Wilson.Proportion(a, n) - Wilson.Proportion(b, n) else d == 0.0
  {
    if n == 0 {
      assert (a - b) as real == 0.0;
    }
  }

  lemma Margin(root: real, discordant: nat, total: real, difference: real, low: real, high: real)
    requires Wilson.IsRoot(root, discordant as real) && total > 0.0
    requires low == difference - Z * (root / total) && high == difference + Z * (root / total)
    ensures low <= high && difference - low == high - difference && MarginWidth(low, high, total, discordant)
  {
    var q := root / total;
    Wilson.Quotient(root, total);
    Wilson.Factor(q, total);
    assert (high - low) * total == 3.92 * (q * total);
    assert (3.92 * root) * (3.92 * root) == 3.92 * 3.92 * (root * root);
  }

  /** No question is in both pairs of dictionaries. */
  predicate Apart(ours: Marks, theirs: Marks, moreOurs: Marks, moreTheirs: Marks) {
    ours.Keys + theirs.Keys !! moreOurs.Keys + moreTheirs.Keys
  }

  /** Scores over two sets of questions without a common one: the counts add up. */
  lemma TallySplits(ours: Marks, theirs: Marks, moreOurs: Marks, moreTheirs: Marks)
    requires Apart(ours, theirs, moreOurs, moreTheirs)
    ensures Tally(ours + moreOurs, theirs + moreTheirs) == Add(Tally(ours, theirs), Tally(moreOurs, moreTheirs))
  {
    hide Tally, Apart, Cell;
    var o, t := ours + moreOurs, theirs + moreTheirs;
    CellSplits(ours, theirs, moreOurs, moreTheirs, true, true);
    CellSplits(ours, theirs, moreOurs, moreTheirs, true, false);
    CellSplits(ours, theirs, moreOurs, moreTheirs, false, true);
    CellSplits(ours, theirs, moreOurs, moreTheirs, false, false);
    CellsPartition(ours, theirs);
    CellsPartition(moreOurs, moreTheirs);
    CellsPartition(o, t);
  }

  lemma CellAt(ours: Marks, theirs: Marks, moreOurs: Marks, moreTheirs: Marks,
               a: bool, b: bool, k: string)
    requires Apart(ours, theirs, moreOurs, moreTheirs)
    ensures !(k in Cell(ours, theirs, a, b) && k in Cell(moreOurs, moreTheirs, a, b))
    ensures k in Cell(ours + moreOurs, theirs + moreTheirs, a, b)
       <==> k in Cell(ours, theirs, a, b) || k in Cell(moreOurs, moreTheirs, a, b)
  {
    assert !(k in ours.Keys + theirs.Keys && k in moreOurs.Keys + moreTheirs.Keys);
    assert k in ours.Keys + theirs.Keys <==> k in ours || k in theirs;
    assert k in moreOurs.Keys + moreTheirs.Keys <==> k in moreOurs || k in moreTheirs;
  }

  lemma CellSplits(ours: Marks, theirs: Marks, moreOurs: Marks, moreTheirs: Marks,
                   a: bool, b: bool)
    requires Apart(ours, theirs, moreOurs, moreTheirs)
    ensures |Cell(ours + moreOurs, theirs + moreTheirs, a, b)|
              == |Cell(ours, theirs, a, b)| + |Cell(moreOurs, moreTheirs, a, b)|
  {
    hide Cell, Apart;
    var left, right := Cell(ours, theirs, a, b), Cell(moreOurs, moreTheirs, a, b);
    var whole := Cell(ours + moreOurs, theirs + moreTheirs, a, b);
    forall k ensures !(k in left && k in right) && (k in whole <==> k in left || k in right) {
      CellAt(ours, theirs, moreOurs, moreTheirs, a, b, k);
    }
    UnionSize(left, right, whole);
  }

  // ----- Dictionaries from rows -----

  lemma {:induction false} ScoresAppend(a: seq<Row>, b: seq<Row>, system: string)
    ensures Scores(a + b, system) == Scores(a, system) + Scores(b, system)
    decreases |b|
  {
    if b == [] {
      assert a + b == a;
    } else {
      var n := |b| - 1;
      assert (a + b)[..|a + b| - 1] == a + b[..n] && (a + b)[|a + b| - 1] == b[n];
      ScoresAppend(a, b[..n], system);
    }
  }

  /** Row `i` is the last one of this system for this question. */
  predicate LastRow(rows: seq<Row>, system: string, question: string, i: nat) {
    && i < |rows| && rows[i].system == system && rows[i].questionId == question
    && forall j :: i < j < |rows| ==> rows[j].system != system || rows[j].questionId != question
  }

  /** A score is that of the last row the system has for the question, and it has one exactly when it has a row. */
  lemma {:induction false} LastRowWins(rows: seq<Row>, system: string, question: string)
    ensures question in Scores(rows, system) <==> exists i :: 0 <= i < |rows| && LastRow(rows, system, question, i)
    ensures forall i :: 0 <= i < |rows| && LastRow(rows, system, question, i) ==>
              Scores(rows, system)[question] == rows[i].correct
    decreases |rows|
  {
    if rows != [] {
      var n := |rows| - 1;
      LastRowWins(rows[..n], system, question);
      if rows[n].system == system && rows[n].questionId == question {
        assert LastRow(rows, system, question, n);
      } else {
        assert forall i :: 0 <= i < n ==>
              (LastRow(rows[..n], system, question, i) <==> LastRow(rows, system, question, i));
      }
    }
  }

  lemma {:induction false} ScoredAreIds(rows: seq<Row>, system: string)
    ensures Scores(rows, system).Keys <= Ids(rows)
    ensures Categories(rows).Keys == Ids(rows)
    decreases |rows|
  {
    if rows != [] {
      ScoredAreIds(rows[..|rows| - 1], system);
      IdsStep(rows);
    }
  }

  lemma IdsStep(rows: seq<Row>)
    requires rows != []
    ensures Ids(rows) == Ids(rows[..|rows| - 1]) + {rows[|rows| - 1].questionId}
  {
    assert forall row :: row in rows <==> row in rows[..|rows| - 1] || row == rows[|rows| - 1];
  }

  lemma IdsAppend(a: seq<Row>, b: seq<Row>)
    ensures Ids(a + b) == Ids(a) + Ids(b)
  {
    assert forall row :: row in a + b <==> row in a || row in b;
  }

  /** The category of a question is that of its last row. */
  lemma {:induction false} LastCategoryWins(rows: seq<Row>, question: string)
    ensures question in Categories(rows) <==> exists i :: 0 <= i < |rows| && LastRowOf(rows, question, i)
    ensures forall i :: 0 <= i < |rows| && LastRowOf(rows, question, i) ==>
              Categories(rows)[question] == rows[i].category
    decreases |rows|
  {
    if rows != [] {
      var n := |rows| - 1;
      LastCategoryWins(rows[..n], question);
      if rows[n].questionId == question {
        assert LastRowOf(rows, question, n);
      } else {
        assert forall i :: 0 <= i < n ==> (LastRowOf(rows[..n], question, i) <==> LastRowOf(rows, question, i));
      }
    }
  }

  /** Row `i` is the last one of this question. */
  predicate LastRowOf(rows: seq<Row>, question: string, i: nat) {
    i < |rows| && rows[i].questionId == question && forall j :: i < j < |rows| ==> rows[j].questionId != question
  }

  /** A question is answerable unless its last row calls it an abstention, and dropped if any of its rows has an error;
      each such row is counted. */
  lemma WhatIsDropped(rows: seq<Row>, question: string)
    ensures question in Answerable(Categories(rows))
       <==> exists i :: 0 <= i < |rows| && LastRowOf(rows, question, i) && rows[i].category != "abstention"
    ensures question in FailedQuestions(rows)
       <==> exists i :: 0 <= i < |rows| && rows[i].questionId == question && rows[i].error
    ensures RowsWithError(rows) == |set i | 0 <= i < |rows| && rows[i].error|
  {
    LastCategoryWins(rows, question);
    CountsErrors(rows, 0);
    if question in FailedQuestions(rows) {
      var row :| row in rows && row.error && row.questionId == question;
      var i :| 0 <= i < |rows| && rows[i] == row;
    }
    assert rows[0..] == rows;
  }

  lemma {:induction false} CountsErrors(rows: seq<Row>, k: nat)
    requires k <= |rows|
    ensures RowsWithError(rows[k..]) == |set i | k <= i < |rows| && rows[i].error|
    decreases |rows| - k
  {
    var here := set i | k <= i < |rows| && rows[i].error;
    if k == |rows| {
      assert here == {};
    } else {
      CountsErrors(rows, k + 1);
      var later := set i | k + 1 <= i < |rows| && rows[i].error;
      assert rows[k..][1..] == rows[k + 1..];
      assert here == if rows[k].error then later + {k} else later;
    }
  }

  // ----- Pooling -----

  function Concat(reports: seq<Report>): seq<Row>
    decreases |reports|
  {
    if reports == [] then [] else Concat(reports[..|reports| - 1]) + reports[|reports| - 1].rows
  }

  /** Report `i` has rows and asks nothing that an earlier report asked. */
  predicate Fresh(reports: seq<Report>, i: nat)
    requires i < |reports|
  {
    reports[i].rows != [] && forall j :: 0 <= j < i ==> Ids(reports[i].rows) !! Ids(reports[j].rows)
  }

  predicate Poolable(reports: seq<Report>) {
    forall i :: 0 <= i < |reports| ==> Fresh(reports, i)
  }

  datatype Entry = Entry(path: string, questions: nat, questionIds: Option<set<string>>)

  datatype Pooled = Pooled(
    runs: seq<Entry>, unpaired: nat, answerable: Comparison, failedQuestions: nat, rowsWithError: nat,
    excludingFailures: Comparison, all: Comparison, byCategory: map<string, Comparison>)

  datatype PoolResult = NoRows(run: nat) | Overlap(run: nat, earlier: nat, questions: nat) | Done(pooled: Pooled)

  /** The questions whose category is one of `kinds`. */
  function OfKinds(categories: map<string, string>, kinds: set<string>): set<string> {
    set k | k in categories && categories[k] in kinds
  }

  function Answerable(categories: map<string, string>): set<string> {
    set k | k in categories && categories[k] != ABSTENTION
  }

  function Only(ours: Marks, theirs: Marks, keys: set<string>, sqrt: Sqrt): Comparison {
    Compare(Restrict(ours, keys), Restrict(theirs, keys), sqrt)
  }

  /** The entries of the runs, after the question sets were taken out. */
  function Runs(reports: seq<Report>): seq<Entry> {
    seq(|reports|, i requires 0 <= i < |reports| => Entry(reports[i].path, |Ids(reports[i].rows)|, None))
  }

  /** What pooling yields when nothing overlaps. */
  function PooledOf(reports: seq<Report>, first: string, second: string, sqrt: Sqrt): Pooled {
    var rows := Concat(reports);
    var ours, theirs, categories := Scores(rows, first), Scores(rows, second), Categories(rows);
    Pooled(
      Runs(reports),
      |(ours.Keys - theirs.Keys) + (theirs.Keys - ours.Keys)|,
      Only(ours, theirs, Answerable(categories), sqrt),
      |FailedQuestions(rows)|,
      RowsWithError(rows),
      Only(ours, theirs, Answerable(categories) - FailedQuestions(rows), sqrt),
      Compare(ours, theirs, sqrt),
      map kind | kind in categories.Values :: Only(ours, theirs, OfKinds(categories, {kind}), sqrt))
  }

  /** The earliest run that shares a question, if any. */
  method FirstOverlap(perRun: seq<Entry>, identities: set<string>) returns (j: nat)
    requires forall k :: 0 <= k < |perRun| ==> perRun[k].questionIds.Some?
    ensures j <= |perRun| && (forall k :: 0 <= k < j ==> identities !! perRun[k].questionIds.value)
    ensures j < |perRun| ==> |identities * perRun[j].questionIds.value| > 0
  {
    j := 0;
    while j < |perRun|
      invariant j <= |perRun| && forall k :: 0 <= k < j ==> identities !! perRun[k].questionIds.value
    {
      var overlap := identities * perRun[j].questionIds.value;
      if overlap != {} {
        return;
      }
      assert forall q :: q in identities && q in perRun[j].questionIds.value ==> q in overlap;
      j := j + 1;
    }
  }

  function EntryOf(report: Report): Entry {
    Entry(report.path, |Ids(report.rows)|, Some(Ids(report.rows)))
  }

  /** Pools in the order of the reports and stops at the first that is empty or overlaps an earlier one. */
  method Pool(reports: seq<Report>, first: string, second: string, sqrt: Sqrt) returns (r: PoolResult)
    ensures match r
      case NoRows(i) => i < |reports| && reports[i].rows == [] && forall k :: 0 <= k < i ==> Fresh(reports, k)
      case Overlap(i, j, n) =>
        && j < i < |reports| && (forall k :: 0 <= k < i ==> Fresh(reports, k)) && reports[i].rows != []
        && (forall k :: 0 <= k < j ==> Ids(reports[i].rows) !! Ids(reports[k].rows))
        && n == |Ids(reports[i].rows) * Ids(reports[j].rows)| > 0
      case Done(pooled) => Poolable(reports) && pooled == PooledOf(reports, first, second, sqrt)
  {
    hide Ids, Scores, Categories, Only, Compare, FailedQuestions, RowsWithError, Answerable, OfKinds;
    var perRun: seq<Entry> := [];
    var rows := [];
    for i := 0 to |reports|
      invariant |perRun| == i && rows == Concat(reports[..i])
      invariant forall k :: 0 <= k < i ==> perRun[k] == EntryOf(reports[k])
      invariant forall k :: 0 <= k < i ==> Fresh(reports, k)
    {
      var current := reports[i].rows;
      if current == [] {
        return NoRows(i);
      }
      var identities := Ids(current);
      var j := FirstOverlap(perRun, identities);
      if j < i {
        return Overlap(i, j, |identities * perRun[j].questionIds.value|);
      }
      perRun := perRun + [EntryOf(reports[i])];
      rows := rows + current;
      assert reports[..i + 1][..i] == reports[..i];
    }
    assert reports[..|reports|] == reports;
    perRun := WithoutIds(perRun);
    var ours, theirs, categories := Scores(rows, first), Scores(rows, second), Categories(rows);
    var byCategory := ByCategory(ours, theirs, categories, sqrt);
    var answerable := Answerable(categories);
    var failed := FailedQuestions(rows);
    var unpaired := (ours.Keys - theirs.Keys) + (theirs.Keys - ours.Keys);
    r := Done(Pooled(perRun, |unpaired|, Only(ours, theirs, answerable, sqrt), |failed|, RowsWithError(rows),
                     Only(ours, theirs, answerable - failed, sqrt), Compare(ours, theirs, sqrt), byCategory));
  }

  /** Takes the question sets out of the entries again. */
  method WithoutIds(entries: seq<Entry>) returns (perRun: seq<Entry>)
    ensures perRun == seq(|entries|, i requires 0 <= i < |entries| =>
            Entry(entries[i].path, entries[i].questions, None))
  {
    perRun := entries;
    for j := 0 to |entries|
      invariant |perRun| == |entries|
      invariant forall k :: 0 <= k < |entries| ==>
                  perRun[k] == if k < j then entries[k].(questionIds := None) else entries[k]
    {
      perRun := perRun[j := perRun[j].(questionIds := None)];
    }
  }

  /** One comparison per category, of its questions only. */
  method ByCategory(ours: Marks, theirs: Marks, categories: map<string, string>, sqrt: Sqrt)
    returns (byCategory: map<string, Comparison>)
    ensures byCategory == map kind | kind in categories.Values :: Only(ours, theirs, OfKinds(categories, {kind}), sqrt)
  {
    hide Only, OfKinds;
    byCategory := map[];
    var kinds := categories.Values;
    while kinds != {}
      invariant kinds <= categories.Values
      invariant forall kind :: kind in byCategory <==> kind in categories.Values && kind !in kinds
      invariant forall kind :: kind in byCategory ==>
                  byCategory[kind] == Only(ours, theirs, OfKinds(categories, {kind}), sqrt)
      decreases |kinds|
    {
      var kind :| kind in kinds;
      byCategory := byCategory[kind := Only(ours, theirs, OfKinds(categories, {kind}), sqrt)];
      kinds := kinds - {kind};
    }
  }

  // ----- Additivity -----

  function SumOfRuns(reports: seq<Report>, first: string, second: string): Counts
    decreases |reports|
  {
    if reports == [] then ZERO
    else
      var rows := reports[|reports| - 1].rows;
      Add(SumOfRuns(reports[..|reports| - 1], first, second), Tally(Scores(rows, first), Scores(rows, second)))
  }

  lemma {:induction false} EarlierIds(reports: seq<Report>, ids: set<string>)
    requires forall j :: 0 <= j < |reports| ==> ids !! Ids(reports[j].rows)
    ensures Ids(Concat(reports)) !! ids
    decreases |reports|
  {
    hide Ids;
    if reports == [] {
      assert Ids([]) == {} by { NoIds(); }
    } else {
      EarlierIds(reports[..|reports| - 1], ids);
      IdsAppend(Concat(reports[..|reports| - 1]), reports[|reports| - 1].rows);
    }
  }

  lemma NoIds()
    ensures Ids([]) == {}
  {}

  lemma Empty(first: string, second: string)
    ensures Tally(Scores([], first), Scores([], second)) == ZERO
  {
    CellsPartition(Scores([], first), Scores([], second));
    assert Shared(map[], map[]) == {};
  }

  /** Every count over the pooled rows is the sum of that count over the runs. */
  lemma {:induction false} PoolingAddsRuns(reports: seq<Report>, first: string, second: string)
    requires Poolable(reports)
    ensures Tally(Scores(Concat(reports), first), Scores(Concat(reports), second)) == SumOfRuns(reports, first, second)
    decreases |reports|
  {
    hide Tally, Scores, Ids;
    if reports == [] {
      Empty(first, second);
      return;
    }
    var n := |reports| - 1;
    var earlier, rows := Concat(reports[..n]), reports[n].rows;
    assert Poolable(reports[..n]) by { assert forall i :: 0 <= i < n ==> Fresh(reports, i) ==> Fresh(reports[..n], i); }
    PoolingAddsRuns(reports[..n], first, second);
    assert Fresh(reports, n);
    EarlierIds(reports[..n], Ids(rows));
    ScoresAppend(earlier, rows, first);
    ScoresAppend(earlier, rows, second);
    RunsAreApart(earlier, rows, first, second);
    TallySplits(Scores(earlier, first), Scores(earlier, second), Scores(rows, first), Scores(rows, second));
  }

  lemma RunsAreApart(earlier: seq<Row>, rows: seq<Row>, first: string, second: string)
    requires Ids(earlier) !! Ids(rows)
    ensures Apart(Scores(earlier, first), Scores(earlier, second), Scores(rows, first), Scores(rows, second))
  {
    hide Ids, Scores;
    ScoredAreIds(earlier, first);
    ScoredAreIds(earlier, second);
    ScoredAreIds(rows, first);
    ScoredAreIds(rows, second);
  }

  function SumOfQuestions(entries: seq<Entry>): nat
    decreases |entries|
  {
    if entries == [] then 0 else SumOfQuestions(entries[..|entries| - 1]) + entries[|entries| - 1].questions
  }

  lemma RunsPrefix(reports: seq<Report>, n: nat)
    requires n <= |reports|
    ensures Runs(reports)[..n] == Runs(reports[..n])
  {}

  /** The question counts of the runs count no question twice. */
  lemma {:induction false} EachQuestionOnce(reports: seq<Report>)
    requires Poolable(reports)
    ensures |Ids(Concat(reports))| == SumOfQuestions(Runs(reports))
    decreases |reports|
  {
    hide Ids;
    if reports == [] {
      NoIds();
      return;
    }
    var n := |reports| - 1;
    assert Poolable(reports[..n]) by { assert forall i :: 0 <= i < n ==> Fresh(reports, i) ==> Fresh(reports[..n], i); }
    EachQuestionOnce(reports[..n]);
    assert Fresh(reports, n);
    EarlierIds(reports[..n], Ids(reports[n].rows));
    IdsAppend(Concat(reports[..n]), reports[n].rows);
    UnionSize(Ids(Concat(reports[..n])), Ids(reports[n].rows), Ids(Concat(reports)));
    RunsPrefix(reports, n);
  }

  // ----- Categories -----

  function OnlyCounts(ours: Marks, theirs: Marks, keys: set<string>): Counts {
    Tally(Restrict(ours, keys), Restrict(theirs, keys))
  }

  function SumOfKinds(ours: Marks, theirs: Marks, categories: map<string, string>, kinds: seq<string>): Counts
    decreases |kinds|
  {
    if kinds == [] then ZERO
    else Add(SumOfKinds(ours, theirs, categories, kinds[..|kinds| - 1]),
             OnlyCounts(ours, theirs, OfKinds(categories, {kinds[|kinds| - 1]})))
  }

  predicate Distinct(kinds: seq<string>) {
    forall i, j :: 0 <= i < j < |kinds| ==> kinds[i] != kinds[j]
  }

  function Listed(kinds: seq<string>): set<string> {
    set k | k in kinds
  }

  /** Restricting to two sets of questions without a common one. */
  lemma RestrictSplits(ours: Marks, theirs: Marks, a: set<string>, b: set<string>)
    requires a !! b
    ensures Tally(Restrict(ours, a + b), Restrict(theirs, a + b))
         == Add(Tally(Restrict(ours, a), Restrict(theirs, a)), Tally(Restrict(ours, b), Restrict(theirs, b)))
  {
    hide Tally;
    RestrictUnion(ours, a, b);
    RestrictUnion(theirs, a, b);
    RestrictApart(ours, theirs, a, b);
    TallySplits(Restrict(ours, a), Restrict(theirs, a), Restrict(ours, b), Restrict(theirs, b));
  }

  lemma RestrictUnion(scores: Marks, a: set<string>, b: set<string>)
    ensures Restrict(scores, a + b) == Restrict(scores, a) + Restrict(scores, b)
  {}

  lemma RestrictApart(ours: Marks, theirs: Marks, a: set<string>, b: set<string>)
    requires a !! b
    ensures Apart(Restrict(ours, a), Restrict(theirs, a), Restrict(ours, b), Restrict(theirs, b))
  {
    assert Restrict(ours, a).Keys <= a && Restrict(theirs, a).Keys <= a;
    assert Restrict(ours, b).Keys <= b && Restrict(theirs, b).Keys <= b;
  }

  /** Over any kinds, each listed once, the per-category counts add up to those over all their questions. */
  lemma {:induction false} KindsAdd(ours: Marks, theirs: Marks, categories: map<string, string>, kinds: seq<string>)
    requires Distinct(kinds)
    ensures SumOfKinds(ours, theirs, categories, kinds) == OnlyCounts(ours, theirs, OfKinds(categories, Listed(kinds)))
    decreases |kinds|
  {
    hide Tally, Restrict, OfKinds, Listed;
    if kinds == [] {
      NoKinds(ours, theirs, categories);
      return;
    }
    var n := |kinds| - 1;
    KindsAdd(ours, theirs, categories, kinds[..n]);
    KindsStep(categories, kinds);
    RestrictSplits(ours, theirs, OfKinds(categories, Listed(kinds[..n])), OfKinds(categories, {kinds[n]}));
  }

  lemma NoKinds(ours: Marks, theirs: Marks, categories: map<string, string>)
    ensures OnlyCounts(ours, theirs, OfKinds(categories, Listed([]))) == ZERO
  {
    var none := OfKinds(categories, Listed([]));
    assert none == {};
    assert Restrict(ours, none) == map[] && Restrict(theirs, none) == map[];
    CellsPartition(map[], map[]);
    assert Shared(map[], map[]) == {};
  }

  lemma KindsStep(categories: map<string, string>, kinds: seq<string>)
    requires kinds != [] && Distinct(kinds)
    ensures var n := |kinds| - 1;
            && OfKinds(categories, Listed(kinds))
                 == OfKinds(categories, Listed(kinds[..n])) + OfKinds(categories, {kinds[n]})
            && OfKinds(categories, Listed(kinds[..n])) !! OfKinds(categories, {kinds[n]})
  {
    var n := |kinds| - 1;
    assert Listed(kinds) == Listed(kinds[..n]) + {kinds[n]} by {
      assert forall k :: k in kinds <==> k in kinds[..n] || k == kinds[n];
    }
  }

  /** The counts reported for the given categories, added up. */
  function SumOfCategories(byCategory: map<string, Comparison>, kinds: seq<string>): Counts
    requires Listed(kinds) <= byCategory.Keys
    decreases |kinds|
  {
    if kinds == [] then ZERO
    else
      var n := |kinds| - 1;
      assert kinds[n] in Listed(kinds) && Listed(kinds[..n]) <= Listed(kinds);
      Add(SumOfCategories(byCategory, kinds[..n]), byCategory[kinds[n]].counts)
  }

  lemma OnlyCountsIs(ours: Marks, theirs: Marks, keys: set<string>, sqrt: Sqrt)
    ensures Only(ours, theirs, keys, sqrt).counts == OnlyCounts(ours, theirs, keys)
  {
    hide Tally, Restrict;
  }

  lemma {:induction false} SumsAgree(ours: Marks, theirs: Marks, categories: map<string, string>,
                                     byCategory: map<string, Comparison>, kinds: seq<string>, sqrt: Sqrt)
    requires byCategory == map kind | kind in categories.Values :: Only(ours, theirs, OfKinds(categories, {kind}), sqrt)
    requires Listed(kinds) <= byCategory.Keys
    ensures SumOfCategories(byCategory, kinds) == SumOfKinds(ours, theirs, categories, kinds)
    decreases |kinds|
  {
    hide Only, OfKinds, OnlyCounts;
    if kinds != [] {
      var n := |kinds| - 1;
      assert kinds[n] in Listed(kinds) && Listed(kinds[..n]) <= Listed(kinds);
      SumsAgree(ours, theirs, categories, byCategory, kinds[..n], sqrt);
      OnlyCountsIs(ours, theirs, OfKinds(categories, {kinds[n]}), sqrt);
    }
  }

  /** In whatever order, the categories of a pool add up to all questions, and all but abstention to the answerable. */
  lemma CategoriesAdd(reports: seq<Report>, first: string, second: string, sqrt: Sqrt, kinds: seq<string>)
    requires Distinct(kinds)
    ensures var pooled := PooledOf(reports, first, second, sqrt);
            && (Listed(kinds) == pooled.byCategory.Keys ==>
                 SumOfCategories(pooled.byCategory, kinds) == pooled.all.counts)
            && (Listed(kinds) == pooled.byCategory.Keys - {ABSTENTION} ==>
                  SumOfCategories(pooled.byCategory, kinds) == pooled.answerable.counts)
  {
    hide Scores, Categories, Tally, SumOfKinds, SumOfCategories;
    var rows := Concat(reports);
    var ours, theirs, categories := Scores(rows, first), Scores(rows, second), Categories(rows);
    KindsAdd(ours, theirs, categories, kinds);
    EveryKind(ours, theirs, categories, rows, first, second);
    var byCategory := PooledOf(reports, first, second, sqrt).byCategory;
    assert byCategory.Keys == categories.Values;
    if Listed(kinds) <= byCategory.Keys {
      SumsAgree(ours, theirs, categories, byCategory, kinds, sqrt);
    }
  }

  lemma EveryKind(ours: Marks, theirs: Marks, categories: map<string, string>, rows: seq<Row>,
                  first: string, second: string)
    requires ours == Scores(rows, first) && theirs == Scores(rows, second) && categories == Categories(rows)
    ensures Restrict(ours, OfKinds(categories, categories.Values)) == ours
    ensures Restrict(theirs, OfKinds(categories, categories.Values)) == theirs
    ensures OfKinds(categories, categories.Values - {ABSTENTION}) == Answerable(categories)
  {
    hide Scores, Categories, Ids;
    ScoredAreIds(rows, first);
    ScoredAreIds(rows, second);
    assert OfKinds(categories, categories.Values) == categories.Keys;
  }

  /** What the questions with a failure change is exactly what they count for. */
  lemma ExclusionSplits(reports: seq<Report>, first: string, second: string, sqrt: Sqrt)
    ensures var rows := Concat(reports);
            var pooled := PooledOf(reports, first, second, sqrt);
            var dropped := Answerable(Categories(rows)) * FailedQuestions(rows);
            pooled.answerable.counts
                == Add(pooled.excludingFailures.counts, OnlyCounts(Scores(rows, first), Scores(rows, second), dropped))
  {
    hide Scores, Categories, Tally, Answerable, FailedQuestions;
    var rows := Concat(reports);
    var answerable, failed := Answerable(Categories(rows)), FailedQuestions(rows);
    assert answerable == (answerable - failed) + (answerable * failed);
    RestrictSplits(Scores(rows, first), Scores(rows, second), answerable - failed, answerable * failed);
  }

  lemma SymmetricDifference(a: set<string>, b: set<string>, shared: set<string>)
    requires shared == a * b
    ensures |a + b| == |shared| + |(a - b) + (b - a)|
    ensures |a| + |b| == 2 * |shared| + |(a - b) + (b - a)|
  {
    UnionSize(a - b, b - a, (a - b) + (b - a));
    UnionSize(a - b, shared, a);
    UnionSize(b - a, shared, b);
    UnionSize((a - b) + (b - a), shared, a + b);
  }

  /** Every answered question is paired or counted as answered by one system only. */
  lemma UnpairedIsTheRest(reports: seq<Report>, first: string, second: string, sqrt: Sqrt)
    ensures var ours, theirs := Scores(Concat(reports), first).Keys, Scores(Concat(reports), second).Keys;
            var pooled := PooledOf(reports, first, second, sqrt);
            && |ours + theirs| == pooled.all.counts.paired + pooled.unpaired
            && |ours| + |theirs| == 2 * pooled.all.counts.paired + pooled.unpaired
  {
    hide Scores;
    var ours, theirs := Scores(Concat(reports), first), Scores(Concat(reports), second);
    CellsPartition(ours, theirs);
    SymmetricDifference(ours.Keys, theirs.Keys, Shared(ours, theirs));
  }

  // ----- What is reported beside the comparisons -----

  lemma {:induction false} ConcatHas(reports: seq<Report>, row: Row)
    ensures row in Concat(reports) <==> exists i :: 0 <= i < |reports| && row in reports[i].rows
    decreases |reports|
  {
    if reports != [] {
      var n := |reports| - 1;
      ConcatHas(reports[..n], row);
      if i :| 0 <= i < |reports| && row in reports[i].rows { assert i < n ==> reports[..n][i] == reports[i]; }
    }
  }

  function ErrorsOf(reports: seq<Report>): nat {
    if reports == [] then 0
    else ErrorsOf(reports[..|reports| - 1])
         + var rows := reports[|reports| - 1].rows; |set i | 0 <= i < |rows| && rows[i].error|
  }

  lemma {:induction false} ErrorsAppend(a: seq<Row>, b: seq<Row>)
    ensures RowsWithError(a + b) == RowsWithError(a) + RowsWithError(b)
    decreases |a|
  {
    if a == [] {
      assert a + b == b;
    } else {
      assert (a + b)[1..] == a[1..] + b;
      ErrorsAppend(a[1..], b);
    }
  }

  lemma {:induction false} ErrorsAdd(reports: seq<Report>)
    ensures RowsWithError(Concat(reports)) == ErrorsOf(reports)
    decreases |reports|
  {
    hide RowsWithError;
    if reports == [] {
      assert RowsWithError([]) == 0 by { NoErrors(); }
    } else {
      var rows := reports[|reports| - 1].rows;
      ErrorsAdd(reports[..|reports| - 1]);
      ErrorsAppend(Concat(reports[..|reports| - 1]), rows);
      CountsErrors(rows, 0);
      assert rows[0..] == rows;
    }
  }

  lemma NoErrors()
    ensures RowsWithError([]) == 0
  {}

  /** A pooled report lists every run with its path and the number of its questions, and counts the questions and the
      rows of all runs that failed. */
  lemma FailuresAreReported(reports: seq<Report>, first: string, second: string, sqrt: Sqrt)
    returns (failed: set<string>)
    ensures var p := PooledOf(reports, first, second, sqrt);
            && |p.runs| == |reports|
            && (forall i :: 0 <= i < |reports| ==>
                  p.runs[i].path == reports[i].path
                  && p.runs[i].questions == |set j | 0 <= j < |reports[i].rows| :: reports[i].rows[j].questionId|)
            && p.failedQuestions == |failed| && p.rowsWithError == ErrorsOf(reports)
    ensures forall q :: q in failed <==>
              exists i, row :: 0 <= i < |reports| && row in reports[i].rows && row.questionId == q && row.error
  {
    hide Compare, Only, Scores, Categories, RowsWithError, Answerable, OfKinds;
    var rows := Concat(reports);
    failed := FailedQuestions(rows);
    ErrorsAdd(reports);
    forall i | 0 <= i < |reports|
      ensures Ids(reports[i].rows) == set j | 0 <= j < |reports[i].rows| :: reports[i].rows[j].questionId
    {
      IdsByIndex(reports[i].rows);
    }
    forall q ensures q in failed <==>
      exists i, row :: 0 <= i < |reports| && row in reports[i].rows && row.questionId == q && row.error
    {
      forall row ensures row in rows <==> exists i :: 0 <= i < |reports| && row in reports[i].rows {
        ConcatHas(reports, row);
      }
    }
  }

  lemma IdsByIndex(rows: seq<Row>)
    ensures Ids(rows) == set j | 0 <= j < |rows| :: rows[j].questionId
  {
    var byIndex := set j | 0 <= j < |rows| :: rows[j].questionId;
    forall q | q in Ids(rows) ensures q in byIndex {
      var row :| row in rows && row.questionId == q;
      var j :| 0 <= j < |rows| && rows[j] == row;
    }
  }
}
