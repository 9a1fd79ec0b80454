/**
 * The dashboard of app/page.tsx: the review sections with their totals,
 * progress, start buttons and item previews, and the theme toggle.
 * Progress is an exact ratio, not a floating-point one.
 */
module Dashboard {
  import opened Wrappers
  import Seqs
  import Header

  datatype Section = Section(id: string, title: string, count: int, completed: int, total: int, items: seq<string>)

  const ReviewSections: seq<Section> := [
    Section("new", "New Reviews", 12, 8, 12,
            ["JavaScript closures and scope", "React useEffect dependencies", "CSS Grid vs Flexbox"]),
    Section("weekly", "Weekly Reviews", 8, 3, 8,
            ["Database normalization principles", "HTTP status codes", "Git branching strategies"]),
    Section("monthly", "Monthly Reviews", 15, 12, 15,
            ["System design patterns", "Algorithm complexity analysis", "Network protocols overview"]),
    Section("yearly", "Yearly Reviews", 6, 6, 6,
            ["Software architecture principles", "Project management methodologies", "Leadership and team dynamics"])]

  function Count(s: Section): int { s.count }
  function Completed(s: Section): int { s.completed }

  /** `totalReviews`. */
  function TotalReviews(sections: seq<Section>): int {
    Seqs.Sum(sections, Count)
  }

  /** `totalCompleted`. */
  function TotalCompleted(sections: seq<Section>): int {
    Seqs.Sum(sections, Completed)
  }

  /** A guarded percentage: 0 when there is nothing to do. */
  function Percent(done: int, total: int): (p: real)
    ensures total <= 0 ==> p == 0.0
    ensures total > 0 ==> p * (total as real) == (done as real) * 100.0
    ensures total > 0 && 0 <= done <= total ==> 0.0 <= p <= 100.0
  {
    if total > 0 then (done as real) / (total as real) * 100.0 else 0.0
  }

  /** `overallProgress`. */
  function OverallProgress(sections: seq<Section>): real {
    Percent(TotalCompleted(sections), TotalReviews(sections))
  }

  /** The section's progress bar. */
  function SectionProgress(s: Section): real {
    Percent(s.completed, s.total)
  }

  /** A section whose completed count lies within its total shows a bar
      between empty and full, full exactly when everything is done. */
  lemma SectionProgressBounds(s: Section)
    requires 0 <= s.completed <= s.total && s.total > 0
    ensures 0.0 <= SectionProgress(s) <= 100.0
    ensures SectionProgress(s) == 100.0 <==> s.completed == s.total
  {
    var p := SectionProgress(s);
    var t := s.total as real;
    assert p * t == (s.completed as real) * 100.0;
    if p == 100.0 {
      assert 100.0 * t == (s.completed as real) * 100.0;
    }
    if s.completed == s.total {
      assert (s.completed as real) / t == 1.0;
    }
  }

  /** Totals add up section by section. */
  lemma TotalsAppend(a: seq<Section>, b: seq<Section>)
    ensures TotalReviews(a + b) == TotalReviews(a) + TotalReviews(b)
    ensures TotalCompleted(a + b) == TotalCompleted(a) + TotalCompleted(b)
  {
    Seqs.SumAppend(a, b, Count);
    Seqs.SumAppend(a, b, Completed);
  }

  /** When no section has more done than due, neither has the total. */
  lemma {:induction false} CompletedAtMostTotal(sections: seq<Section>)
    requires forall i | 0 <= i < |sections| :: 0 <= sections[i].completed <= sections[i].count
    ensures 0 <= TotalCompleted(sections) <= TotalReviews(sections)
    ensures 0.0 <= OverallProgress(sections) <= 100.0
  {
    if sections != [] {
      CompletedAtMostTotal(sections[1..]);
    }
  }

  /** The sample sections: 41 reviews, 29 completed. */
  lemma SampleTotals()
    ensures TotalReviews(ReviewSections) == 41
    ensures TotalCompleted(ReviewSections) == 29
  {
    assert ReviewSections[1..][1..][1..][1..] == [];
  }

  /** The start button is disabled, and labelled "Completed", exactly when
      everything in the section is done. */
  function StartButton(s: Section): (b: (bool, string))
    ensures b.0 <==> s.completed == s.total
    ensures b.1 == (if s.completed == s.total then "Completed" else "Start Review")
  {
    (s.completed == s.total, if s.completed == s.total then "Completed" else "Start Review")
  }

  /** Of the sample sections only the yearly one is finished. */
  lemma OnlyYearlyCompleted()
    ensures forall i | 0 <= i < |ReviewSections| :: StartButton(ReviewSections[i]).0 <==> ReviewSections[i].id == "yearly"
  {
  }

  /** The preview: at most the first two items, and "+n more" for the rest. */
  function Preview(items: seq<string>): (p: (seq<string>, Option<int>))
    ensures |p.0| == if |items| < 2 then |items| else 2
    ensures p.0 == items[..|p.0|]
    ensures p.1.Some? <==> |items| > 2
    ensures p.1.Some? ==> p.1.value == |items| - 2 && |p.0| + p.1.value == |items|
  {
    (if |items| < 2 then items else items[..2], if |items| > 2 then Some(|items| - 2) else None)
  }

  /** The page's theme button follows the header's rule. */
  function ThemeToggle(theme: Option<string>): (t: string)
    ensures theme == Some("dark") ==> t == "light"
    ensures theme == Some("light") ==> t == "system"
    ensures theme != Some("dark") && theme != Some("light") ==> t == "dark"
  {
    Header.NextTheme(theme)
  }
}
