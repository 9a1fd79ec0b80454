/**
 * The statistics view of components/statistics-deep-dive.tsx: the bar
 * colours and the two subject rankings, which sort the caller's array in
 * place.
 */
module StatisticsDeepDive {
  import opened Sorting
  import opened PerformanceTable
  import opened Text

  /** The time-of-day bar colour: green, overwritten by yellow below 85 and
      then by red below 80. */
  method TimeOfDayColor(successRate: int) returns (color: Level)
    ensures color == Green <==> successRate >= 85
    ensures color == Yellow <==> 80 <= successRate < 85
    ensures color == Red <==> successRate < 80
  {
    color := Green;
    if successRate < 85 {
      color := Yellow;
    }
    if successRate < 80 {
      color := Red;
    }
  }

  /** The retention bar colour: the table's retention rule. */
  function RetentionBarColor(rate: int): (c: Level)
    ensures c == Green <==> rate >= 90
    ensures c == Yellow <==> 80 <= rate < 90
    ensures c == Red <==> rate < 80
  {
    RetentionColor(rate)
  }

  /** The difficulty badge of the third tab: the table's rule, compared
      after lower-casing, gray when empty or unknown. */
  function DifficultyBadge(difficulty: string): (c: Level)
    ensures c == Green <==> ToLower(difficulty) == "easy"
    ensures c == Yellow <==> ToLower(difficulty) == "medium"
    ensures c == Red <==> ToLower(difficulty) == "hard"
    ensures c == Gray <==> ToLower(difficulty) !in {"easy", "medium", "hard"}
  {
    DifficultyColor(difficulty)
  }

  function Completion(s: SubjectStat): int {
    s.completionRate
  }

  function Retention(s: SubjectStat): int {
    s.retentionRate
  }

  /** `array.sort((a, b) => key(b) - key(a))` on the given array: it is
      rearranged, in place, into the stable descending order. */
  method SortInPlace(a: array<SubjectStat>, key: SubjectStat -> int)
    modifies a
    ensures a[..] == SortDesc(old(a[..]), key)
  {
    var sorted := SortDesc(a[..], key);
    for i := 0 to a.Length
      invariant a[..i] == sorted[..i]
    {
      a[i] := sorted[i];
    }
    assert a[..] == a[..a.Length];
  }

  /** The completion tab, then the retention tab, each sort the same prop
      array: afterwards it is ordered by retention, still holds exactly the
      original entries, and the completion tab had shown them by completion. */
  method RenderTabs(subjectData: array<SubjectStat>) returns (completionTab: seq<SubjectStat>, retentionTab: seq<SubjectStat>)
    modifies subjectData
    ensures multiset(completionTab) == multiset(old(subjectData[..])) && SortedDesc(completionTab, Completion)
    ensures completionTab == SortDesc(old(subjectData[..]), Completion)
    ensures retentionTab == SortDesc(completionTab, Retention)
    ensures subjectData[..] == retentionTab
    ensures multiset(retentionTab) == multiset(old(subjectData[..])) && SortedDesc(retentionTab, Retention)
  {
    SortInPlace(subjectData, Completion);
    completionTab := subjectData[..];
    SortInPlace(subjectData, Retention);
    retentionTab := subjectData[..];
  }
}
