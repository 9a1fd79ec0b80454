/**
 * The per-subject performance table of components/performance-table.tsx:
 * one row per entry, a difficulty badge colour and a retention colour. The
 * same record and the same two colour rules are used by the statistics view.
 */
module PerformanceTable {
  import opened Text

  /** A subject's statistics as the components receive them. Rates are
      whole percentages. */
  datatype SubjectStat = SubjectStat(subject: string, totalItems: int, completionRate: int,
                                     avgDifficulty: string, avgTime: string, retentionRate: int)

  /** The colour families the class names select. */
  datatype Level = Green | Yellow | Red | Gray

  /** `getDifficultyColor`: compared after lower-casing; an empty or unknown
      difficulty is gray. */
  function DifficultyColor(difficulty: string): (c: Level)
    ensures c == Green <==> ToLower(difficulty) == "easy"
    ensures c == Yellow <==> ToLower(difficulty) == "medium"
    ensures c == Red <==> ToLower(difficulty) == "hard"
    ensures c == Gray <==> ToLower(difficulty) !in {"easy", "medium", "hard"}
    ensures difficulty == "" ==> c == Gray
  {
    if difficulty == "" then Gray
    else
      var d := ToLower(difficulty);
      if d == "easy" then Green
      else if d == "medium" then Yellow
      else if d == "hard" then Red
      else Gray
  }

  /** Only the letters matter, not their case. */
  lemma DifficultyColorIgnoresCase(difficulty: string)
    ensures DifficultyColor(difficulty) == DifficultyColor(ToLower(difficulty))
  {
    ToLowerIdempotent(difficulty);
  }

  /** `getRetentionColor`: green from 90, yellow from 80, red below. */
  function RetentionColor(rate: int): (c: Level)
    ensures c == Green <==> rate >= 90
    ensures c == Yellow <==> 80 <= rate < 90
    ensures c == Red <==> rate < 80
  {
    if rate >= 90 then Green
    else if rate >= 80 then Yellow
    else Red
  }

  function Warmth(c: Level): nat {
    match c
    case Green => 0
    case Yellow => 1
    case Red => 2
    case Gray => 0
  }

  /** A higher retention rate never gives a worse colour. */
  lemma RetentionColorMonotone(a: int, b: int)
    requires a <= b
    ensures Warmth(RetentionColor(b)) <= Warmth(RetentionColor(a))
  {
  }

  /** One rendered row. */
  datatype TableRow = TableRow(subject: string, totalItems: int, completionRate: int,
                               difficulty: string, difficultyColor: Level, avgTime: string,
                               retentionRate: int, retentionColor: Level)

  function RowOf(item: SubjectStat): (r: TableRow)
    ensures r.subject == item.subject && r.totalItems == item.totalItems
    ensures r.completionRate == item.completionRate && r.difficulty == item.avgDifficulty
    ensures r.avgTime == item.avgTime && r.retentionRate == item.retentionRate
    ensures r.difficultyColor == DifficultyColor(item.avgDifficulty)
    ensures r.retentionColor == RetentionColor(item.retentionRate)
  {
    TableRow(item.subject, item.totalItems, item.completionRate, item.avgDifficulty,
             DifficultyColor(item.avgDifficulty), item.avgTime, item.retentionRate,
             RetentionColor(item.retentionRate))
  }

  /** `data.map(...)`: one row per entry, in input order. */
  function Rows(data: seq<SubjectStat>): (r: seq<TableRow>)
    ensures |r| == |data|
    ensures forall i | 0 <= i < |data| :: r[i] == RowOf(data[i])
  {
    seq(|data|, i requires 0 <= i < |data| => RowOf(data[i]))
  }

  /** The table of two lists is the first table followed by the second. */
  lemma RowsAppend(a: seq<SubjectStat>, b: seq<SubjectStat>)
    ensures Rows(a + b) == Rows(a) + Rows(b)
  {
    assert forall i | 0 <= i < |a + b| :: Rows(a + b)[i] == (Rows(a) + Rows(b))[i];
  }
}
