/**
 * The analytics page's data (app/analytics/page.tsx): the sample series it
 * generates and the defaulting of the payload before rendering. Dates are
 * day numbers counted from today; the ISO and locale formatting is not
 * modelled. The sample counts come from `Math.random` and are chosen
 * nondeterministically within the ranges the code draws from.
 */
module Analytics {
  import opened Wrappers
  import PerformanceTable

  datatype DayCount = DayCount(date: int, count: int)
  datatype MonthItems = MonthItems(month: nat, items: int)
  datatype CompletionRate = CompletionRate(subject: string, completed: int, total: int)
  datatype StageCount = StageCount(stage: string, count: int)
  datatype Forecast = Forecast(day: int, items: int)
  datatype Achievement = Achievement(name: string, icon: string, earned: bool, date: Option<string>)
  datatype TimeOfDay = TimeOfDay(time: string, successRate: int)
  datatype DifficultyRate = DifficultyRate(subject: string, hardRate: int)
  datatype ReviewTime = ReviewTime(subject: string, avgTime: real)

  /** The payload: four headline numbers and ten lists, any of which may be
      absent. */
  datatype AnalyticsData = AnalyticsData(
    totalItems: Option<int>,
    currentStreak: Option<int>,
    itemsDueToday: Option<int>,
    successRate: Option<int>,
    reviewActivity: Option<seq<DayCount>>,
    learningProgress: Option<seq<MonthItems>>,
    completionRates: Option<seq<CompletionRate>>,
    reviewStages: Option<seq<StageCount>>,
    workloadForecast: Option<seq<Forecast>>,
    subjectStats: Option<seq<PerformanceTable.SubjectStat>>,
    achievements: Option<seq<Achievement>>,
    timeOfDayPerformance: Option<seq<TimeOfDay>>,
    difficultyAnalysis: Option<seq<DifficultyRate>>,
    reviewTimeAnalytics: Option<seq<ReviewTime>>)

  /** `field || []` for a list field: absent becomes empty, present is kept. */
  function OrEmpty<T>(field: Option<seq<T>>): (r: Option<seq<T>>)
    ensures r.Some?
    ensures field.Some? ==> r == field
    ensures field.None? ==> r == Some([])
  {
    Some(field.GetOr([]))
  }

  /** Every list field is present in the result. */
  predicate Complete(d: AnalyticsData) {
    && d.reviewActivity.Some? && d.learningProgress.Some? && d.completionRates.Some?
    && d.reviewStages.Some? && d.workloadForecast.Some? && d.subjectStats.Some?
    && d.achievements.Some? && d.timeOfDayPerformance.Some? && d.difficultyAnalysis.Some?
    && d.reviewTimeAnalytics.Some?
  }

  /** `validateAnalyticsData`: the spread copies every field, then each of
      the ten lists is defaulted. */
  function Validate(d: AnalyticsData): (r: AnalyticsData)
    ensures Complete(r)
    ensures r.totalItems == d.totalItems && r.currentStreak == d.currentStreak
    ensures r.itemsDueToday == d.itemsDueToday && r.successRate == d.successRate
    ensures Complete(d) ==> r == d
    ensures d.reviewActivity.Some? ==> r.reviewActivity == d.reviewActivity
    ensures d.reviewActivity.None? ==> r.reviewActivity == Some([])
    ensures d.learningProgress.Some? ==> r.learningProgress == d.learningProgress
    ensures d.learningProgress.None? ==> r.learningProgress == Some([])
    ensures d.completionRates.Some? ==> r.completionRates == d.completionRates
    ensures d.completionRates.None? ==> r.completionRates == Some([])
    ensures d.reviewStages.Some? ==> r.reviewStages == d.reviewStages
    ensures d.reviewStages.None? ==> r.reviewStages == Some([])
    ensures d.workloadForecast.Some? ==> r.workloadForecast == d.workloadForecast
    ensures d.workloadForecast.None? ==> r.workloadForecast == Some([])
    ensures d.subjectStats.Some? ==> r.subjectStats == d.subjectStats
    ensures d.subjectStats.None? ==> r.subjectStats == Some([])
    ensures d.achievements.Some? ==> r.achievements == d.achievements
    ensures d.achievements.None? ==> r.achievements == Some([])
    ensures d.timeOfDayPerformance.Some? ==> r.timeOfDayPerformance == d.timeOfDayPerformance
    ensures d.timeOfDayPerformance.None? ==> r.timeOfDayPerformance == Some([])
    ensures d.difficultyAnalysis.Some? ==> r.difficultyAnalysis == d.difficultyAnalysis
    ensures d.difficultyAnalysis.None? ==> r.difficultyAnalysis == Some([])
    ensures d.reviewTimeAnalytics.Some? ==> r.reviewTimeAnalytics == d.reviewTimeAnalytics
    ensures d.reviewTimeAnalytics.None? ==> r.reviewTimeAnalytics == Some([])
  {
    d.(reviewActivity := OrEmpty(d.reviewActivity),
       learningProgress := OrEmpty(d.learningProgress),
       completionRates := OrEmpty(d.completionRates),
       reviewStages := OrEmpty(d.reviewStages),
       workloadForecast := OrEmpty(d.workloadForecast),
       subjectStats := OrEmpty(d.subjectStats),
       achievements := OrEmpty(d.achievements),
       timeOfDayPerformance := OrEmpty(d.timeOfDayPerformance),
       difficultyAnalysis := OrEmpty(d.difficultyAnalysis),
       reviewTimeAnalytics := OrEmpty(d.reviewTimeAnalytics))
  }

  /** Validating twice is validating once. */
  lemma ValidateIdempotent(d: AnalyticsData)
    ensures Validate(Validate(d)) == Validate(d)
  {
    assert Complete(Validate(d));
  }

  /** The 365 days of review activity ending today, with daily counts
      `floor(random * 20)`. */
  method GenerateReviewActivity(today: int) returns (r: seq<DayCount>)
    ensures |r| == 365
    ensures forall i | 0 <= i < 365 :: r[i].date == today - (364 - i) && 0 <= r[i].count <= 19
    ensures r[364].date == today
    ensures forall i | 0 <= i < 364 :: r[i + 1].date == r[i].date + 1
  {
    r := [];
    for i := 0 to 365
      invariant |r| == i
      invariant forall j | 0 <= j < i :: r[j].date == today - (364 - j) && 0 <= r[j].count <= 19
    {
      var count :| 0 <= count <= 19;
      r := r + [DayCount(today - (364 - i), count)];
    }
  }

  /** Twelve months with `floor(random * 50) + 20` items each. */
  method GenerateLearningProgress() returns (r: seq<MonthItems>)
    ensures |r| == 12
    ensures forall i | 0 <= i < 12 :: r[i].month == i && 20 <= r[i].items <= 69
  {
    r := [];
    for i := 0 to 12
      invariant |r| == i
      invariant forall j | 0 <= j < i :: r[j].month == j && 20 <= r[j].items <= 69
    {
      var items :| 20 <= items <= 69;
      r := r + [MonthItems(i, items)];
    }
  }

  /** Thirty days starting today with `floor(random * 15) + 5` items each. */
  method GenerateWorkloadForecast(today: int) returns (r: seq<Forecast>)
    ensures |r| == 30
    ensures forall i | 0 <= i < 30 :: r[i].day == today + i && 5 <= r[i].items <= 19
  {
    r := [];
    for i := 0 to 30
      invariant |r| == i
      invariant forall j | 0 <= j < i :: r[j].day == today + j && 5 <= r[j].items <= 19
    {
      var items :| 5 <= items <= 19;
      r := r + [Forecast(today + i, items)];
    }
  }
}
