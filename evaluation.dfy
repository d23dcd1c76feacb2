/**
 * The evaluation itself (`perform_comprehensive_evaluation`): the originality
 * report is stored first, the parsed review is merged over it, the mean of
 * all grades is taken over every key of the merged report, and the grade of
 * the correctness entry is returned beside it. The similarity score and the
 * reviewer's text are inputs; a failure to sum or to look up the correctness
 * grade is an exception the evaluation lets through, modelled as an error.
 */
module Evaluation {
  import opened Wrappers
  import opened JsonDict
  import opened ReviewParser
  import opened Originality

  const ORIGINALITY_KEY := "Оригинальность (Анти-плагиат)"

  /** The exceptions the evaluation can raise after both services answered. */
  datatype EvalError =
    | EntryNotObject           // a report value has no `get` (AttributeError while summing)
    | GradeNotNumber           // a grade that cannot be added to a number (TypeError while summing)
    | MissingCorrectness       // the report has no correctness entry (KeyError)
    | MissingCorrectnessGrade  // the correctness entry has no "grade" (KeyError)

  /** What the evaluation returns: the mean grade and the raw correctness grade. */
  datatype Graded = Graded(mean: real, correctness: Json)

  /** What a grade adds to a Python sum: a number itself, a boolean as 1 or 0. */
  function Addend(grade: Json): (r: Option<real>)
    ensures r.Some? <==> grade.Num? || grade.Bool?
    ensures grade.Num? ==> r == Some(grade.x)
    ensures grade.Bool? ==> r == Some(if grade.b then 1.0 else 0.0)
  {
    match grade
    case Num(x) => Some(x)
    case Bool(b) => Some(if b then 1.0 else 0.0)
    case _ => None
  }

  /** `entry.get("grade", 0)` as a summand: an absent grade counts as 0. */
  function GradeOf(entry: Json): (r: Result<real, EvalError>)
    ensures !entry.Obj? ==> r == Failure(EntryNotObject)
    ensures entry.Obj? && Get(entry.fields, "grade").None? ==> r == Success(0.0)
    ensures entry.Obj? && Get(entry.fields, "grade").Some?
            ==> (r.Success? <==> Addend(Get(entry.fields, "grade").value).Some?)
    ensures r.Success? && entry.Obj? && Get(entry.fields, "grade").Some?
            ==> r.value == Addend(Get(entry.fields, "grade").value).value
    ensures r.Failure? ==> r.error in {EntryNotObject, GradeNotNumber}
  {
    match entry
    case Obj(fields) =>
      (match Get(fields, "grade")
       case None => Success(0.0)
       case Some(grade) =>
         if Addend(grade).Some? then Success(Addend(grade).value) else Failure(GradeNotNumber))
    case _ => Failure(EntryNotObject)
  }

  /** The sum of the grades of `entries` from left to right; the first entry that cannot be added raises. */
  function GradeTotal(entries: seq<Json>): (r: Result<real, EvalError>)
    ensures r.Success? <==> forall i :: 0 <= i < |entries| ==> GradeOf(entries[i]).Success?
    ensures r.Failure? ==> r.error in {EntryNotObject, GradeNotNumber}
  {
    if entries == [] then Success(0.0)
    else
      match GradeTotal(entries[..|entries| - 1])
      case Failure(e) => Failure(e)
      case Success(total) =>
        match GradeOf(entries[|entries| - 1])
        case Failure(e) => Failure(e)
        case Success(grade) => Success(total + grade)
  }

  /** The report before the review is merged: the originality entry alone. */
  function OriginalityOnly(similarity: Option<real>, format: real -> string): (d: Dict)
    ensures Valid(d) && d.keys == [ORIGINALITY_KEY] && d.values.Keys == {ORIGINALITY_KEY}
  {
    Dict([ORIGINALITY_KEY], map[ORIGINALITY_KEY := Obj(OriginalityEntry(similarity, format))])
  }

  /**
   * The merged report: the originality entry under its key, then every pair
   * of the parsed review (`ParseReview`'s result) assigned over it. Its first key is always the
   * originality key, so it is never empty.
   */
  function Report(similarity: Option<real>, review: Dict, format: real -> string): (report: Dict)
    ensures Valid(report) && |report.keys| >= 1 && report.keys[0] == ORIGINALITY_KEY
  {
    Update(OriginalityOnly(similarity, format), review)
  }

  /** The mean of the grades over all keys, and the grade of the correctness entry. */
  function Summarize(report: Dict): (r: Result<Graded, EvalError>)
    requires Valid(report) && |report.keys| > 0
    ensures GradeTotal(Entries(report)).Failure? ==> r == Failure(GradeTotal(Entries(report)).error)
    ensures GradeTotal(Entries(report)).Success? && CORRECTNESS !in report.values
            ==> r == Failure(MissingCorrectness)
    ensures GradeTotal(Entries(report)).Success? && CORRECTNESS in report.values
            && report.values[CORRECTNESS].Obj? && Get(report.values[CORRECTNESS].fields, "grade").None?
            ==> r == Failure(MissingCorrectnessGrade)
    ensures GradeTotal(Entries(report)).Success? && CORRECTNESS in report.values
            && report.values[CORRECTNESS].Obj? && Get(report.values[CORRECTNESS].fields, "grade").Some?
            ==> r.Success?
    ensures r.Success? ==> GradeTotal(Entries(report)).Success?
                           && r.value.mean == GradeTotal(Entries(report)).value / (|report.keys| as real)
    ensures r.Success? ==> CORRECTNESS in report.values && report.values[CORRECTNESS].Obj?
                           && Get(report.values[CORRECTNESS].fields, "grade") == Some(r.value.correctness)
  {
    match GradeTotal(Entries(report))
    case Failure(e) => Failure(e)
    case Success(total) =>
      match Get(report, CORRECTNESS)
      case None => Failure(MissingCorrectness)
      case Some(entry) =>
        if !entry.Obj? then Failure(EntryNotObject)
        else
          match Get(entry.fields, "grade")
          case None => Failure(MissingCorrectnessGrade)
          case Some(grade) => Success(Graded(total / (|report.keys| as real), grade))
  }

  /**
   * Any review whose entries all have a grade that can be added and whose
   * correctness entry has a grade is evaluated successfully, whatever its
   * keys: the mean is the sum of all grades over the number of distinct keys
   * of the originality entry and the review together, and the correctness
   * grade is the review's own.
   */
  lemma ReviewEvaluation(similarity: Option<real>, review: Dict, format: real -> string)
    requires Valid(review)
    requires forall k :: k in review.values ==> GradeOf(review.values[k]).Success?
    requires CORRECTNESS in review.values && review.values[CORRECTNESS].Obj?
    requires Get(review.values[CORRECTNESS].fields, "grade").Some?
    ensures var report := Report(similarity, review, format);
            GradeTotal(Entries(report)).Success?
            && Summarize(report)
               == Success(Graded(GradeTotal(Entries(report)).value / (|review.values.Keys + {ORIGINALITY_KEY}| as real),
                                 Get(review.values[CORRECTNESS].fields, "grade").value))
  {
    var start := OriginalityOnly(similarity, format);
    var report := Report(similarity, review, format);
    var entries := Entries(report);
    forall i | 0 <= i < |entries|
      ensures GradeOf(entries[i]).Success?
    {
      UpdateGet(start, review, report.keys[i]);
    }
    UpdateGet(start, review, CORRECTNESS);
    DenominatorCountsKeys(similarity, review, format);
  }

  /** Once a prefix of the entries fails to sum, the whole sum fails with that error. */
  lemma {:induction false} PrefixFailureRaises(entries: seq<Json>, n: nat)
    requires n <= |entries| && GradeTotal(entries[..n]).Failure?
    ensures GradeTotal(entries) == GradeTotal(entries[..n])
    decreases |entries| - n
  {
    if n < |entries| {
      var longer := entries[..n + 1];
      assert longer[..n] == entries[..n];
      PrefixFailureRaises(entries, n + 1);
    } else {
      assert entries[..n] == entries;
    }
  }

  /** The first `n` entries' sum extends by the next entry's grade. */
  lemma GradeTotalExtend(entries: seq<Json>, n: nat)
    requires n < |entries|
    ensures GradeTotal(entries[..n + 1])
         == match GradeTotal(entries[..n])
            case Failure(e) => Failure(e)
            case Success(total) =>
              match GradeOf(entries[n])
              case Failure(e) => Failure(e)
              case Success(grade) => Success(total + grade)
  {
    assert entries[..n + 1][..n] == entries[..n];
  }

  /** `sum(item.get("grade", 0) for item in report.values())`, entry by entry. */
  method SumGrades(report: Dict) returns (sum: Result<real, EvalError>)
    requires Valid(report)
    ensures sum == GradeTotal(Entries(report))
  {
    ghost var entries := Entries(report);
    var total := 0.0;
    for i := 0 to |report.keys|
      invariant GradeTotal(entries[..i]) == Success(total)
    {
      GradeTotalExtend(entries, i);
      var grade := GradeOf(report.values[report.keys[i]]);
      if grade.Failure? {
        PrefixFailureRaises(entries, i + 1);
        return Failure(grade.error);
      }
      total := total + grade.value;
    }
    assert entries[..|report.keys|] == entries;
    sum := Success(total);
  }

  /**
   * Runs the evaluation on the two services' answers: `similarity` is the
   * score (None when unavailable), `reviewText` the reviewer's reply.
   */
  method Evaluate(similarity: Option<real>, reviewText: string, decode: string -> Option<Dict>,
                  format: real -> string) returns (outcome: Result<Graded, EvalError>)
    ensures outcome == Summarize(Report(similarity, ParseReview(reviewText, decode), format))
  {
    var finalReport := Dict([], map[]);
    var originality := ScoreOriginality(similarity, format);
    finalReport := Set(finalReport, ORIGINALITY_KEY, Obj(originality));
    assert finalReport == OriginalityOnly(similarity, format);
    var review := ParseReview(reviewText, decode);
    finalReport := Update(finalReport, review);

    var sum := SumGrades(finalReport);
    if sum.Failure? {
      return Failure(sum.error);
    }
    var total := sum.value;

    var entry := Get(finalReport, CORRECTNESS);
    if entry.None? {
      return Failure(MissingCorrectness);
    }
    if !entry.value.Obj? {
      return Failure(EntryNotObject);
    }
    var grade := Get(entry.value.fields, "grade");
    if grade.None? {
      return Failure(MissingCorrectnessGrade);
    }
    outcome := Success(Graded(total / (|finalReport.keys| as real), grade.value));
  }

  /** Merging a review with exactly the three criteria appends them after the originality key. */
  lemma MergeThreeKeys(start: Dict, review: Dict)
    requires Valid(start) && start.keys == [ORIGINALITY_KEY]
    requires Valid(review) && review.keys == [CORRECTNESS, OPTIMALITY, STYLE]
    ensures Update(start, review).keys == [ORIGINALITY_KEY, CORRECTNESS, OPTIMALITY, STYLE]
  {
    UpdateAppends(start, review);
  }

  /** Merging a review with exactly the three criteria gives four entries, originality first. */
  lemma MergeThreeCriteria(start: Dict, review: Dict)
    requires Valid(start) && start.keys == [ORIGINALITY_KEY]
    requires Valid(review) && review.keys == [CORRECTNESS, OPTIMALITY, STYLE]
    ensures Update(start, review).keys == [ORIGINALITY_KEY, CORRECTNESS, OPTIMALITY, STYLE]
    ensures Entries(Update(start, review))
         == [start.values[ORIGINALITY_KEY], review.values[CORRECTNESS], review.values[OPTIMALITY], review.values[STYLE]]
  {
    var merged := Update(start, review);
    MergeThreeKeys(start, review);
    UpdateGet(start, review, ORIGINALITY_KEY);
    UpdateGet(start, review, CORRECTNESS);
    UpdateGet(start, review, OPTIMALITY);
    UpdateGet(start, review, STYLE);
  }

  /** The sum of four grades that can all be added. */
  lemma GradeTotalOfFour(entries: seq<Json>)
    requires |entries| == 4 && forall i :: 0 <= i < 4 ==> GradeOf(entries[i]).Success?
    ensures GradeTotal(entries) == Success(GradeOf(entries[0]).value + GradeOf(entries[1]).value
                                           + GradeOf(entries[2]).value + GradeOf(entries[3]).value)
  {
    assert entries[..1][..0] == [];
    GradeTotalExtend(entries, 1);
    GradeTotalExtend(entries, 2);
    GradeTotalExtend(entries, 3);
    assert entries[..4] == entries;
  }

  /**
   * Any one-entry report merged with a review of exactly the three criteria,
   * each with a grade that can be added: the mean is taken over four grades
   * and the correctness grade is the review's own.
   */
  lemma MergedThreeCriteriaSummary(start: Dict, review: Dict, first: real)
    requires Valid(start) && start.keys == [ORIGINALITY_KEY]
    requires GradeOf(start.values[ORIGINALITY_KEY]) == Success(first)
    requires Valid(review) && review.keys == [CORRECTNESS, OPTIMALITY, STYLE]
    requires forall k :: k in review.values ==> GradeOf(review.values[k]).Success?
    requires review.values[CORRECTNESS].Obj?
    requires Get(review.values[CORRECTNESS].fields, "grade").Some?
    ensures var v := review.values;
            Summarize(Update(start, review))
            == Success(Graded(
                 (first + GradeOf(v[CORRECTNESS]).value + GradeOf(v[OPTIMALITY]).value + GradeOf(v[STYLE]).value) / 4.0,
                 Get(v[CORRECTNESS].fields, "grade").value))
  {
    MergeThreeCriteria(start, review);
    GradeTotalOfFour(Entries(Update(start, review)));
    UpdateGet(start, review, CORRECTNESS);
  }

  /** The originality entry adds its grade to the sum. */
  lemma OriginalityGrade(similarity: Option<real>, format: real -> string)
    ensures GradeOf(OriginalityOnly(similarity, format).values[ORIGINALITY_KEY]) == Success(GradeFor(similarity) as real)
  {
  }

  /**
   * A review with exactly the three criteria, each with a grade that can be
   * added: the mean is taken over four entries and the correctness grade is
   * the review's own.
   */
  lemma ThreeCriteriaEvaluation(similarity: Option<real>, review: Dict, format: real -> string)
    requires Valid(review)
    requires review.keys == [CORRECTNESS, OPTIMALITY, STYLE]
    requires forall k :: k in review.values ==> GradeOf(review.values[k]).Success?
    requires review.values[CORRECTNESS].Obj?
    requires Get(review.values[CORRECTNESS].fields, "grade").Some?
    ensures var v := review.values;
            Summarize(Report(similarity, review, format))
            == Success(Graded(
                 (GradeFor(similarity) as real + GradeOf(v[CORRECTNESS]).value
                  + GradeOf(v[OPTIMALITY]).value + GradeOf(v[STYLE]).value) / 4.0,
                 Get(v[CORRECTNESS].fields, "grade").value))
  {
    var start := OriginalityOnly(similarity, format);
    OriginalityGrade(similarity, format);
    MergedThreeCriteriaSummary(start, review, GradeFor(similarity) as real);
  }

  /**
   * No object could be extracted or decoded: the report holds exactly four
   * entries, the correctness grade is 0 and the mean is the originality grade
   * over 4, which is 0 without a similarity score and 5/4 for a score of at
   * most 0.8.
   */
  lemma FallbackEvaluation(similarity: Option<real>, review: Dict, format: real -> string)
    requires Valid(review) && review.keys == [CORRECTNESS, OPTIMALITY, STYLE]
    requires forall k :: k in review.keys ==> Get(review, k) == Some(FallbackEntry())
    ensures Report(similarity, review, format).keys == [ORIGINALITY_KEY, CORRECTNESS, OPTIMALITY, STYLE]
    ensures Summarize(Report(similarity, review, format))
         == Success(Graded(GradeFor(similarity) as real / 4.0, Num(0.0)))
  {
    FallbackEntryGrade();
    assert Get(review, review.keys[0]) == Some(FallbackEntry());
    assert Get(review, review.keys[1]) == Some(FallbackEntry());
    assert Get(review, review.keys[2]) == Some(FallbackEntry());
    MergeThreeCriteria(OriginalityOnly(similarity, format), review);
    ThreeCriteriaEvaluation(similarity, review, format);
  }

  /** The fallback entry's grade is 0 and adds 0 to the sum. */
  lemma FallbackEntryGrade()
    ensures Get(FallbackEntry().fields, "grade") == Some(Num(0.0))
    ensures GradeOf(FallbackEntry()) == Success(0.0)
  {
  }

  /**
   * A decoded review without the correctness key makes the evaluation raise:
   * a missing criterion is not filled in.
   */
  lemma MissingCorrectnessRaises(similarity: Option<real>, review: Dict, format: real -> string)
    requires CORRECTNESS !in review.values
    ensures Summarize(Report(similarity, review, format)).Failure?
  {
    AssignAllGet(OriginalityOnly(similarity, format), review.keys,
                 review.values, CORRECTNESS);
  }

  /**
   * The denominator of the mean is the number of distinct keys of the
   * originality entry and the review together, so extra keys in the review
   * change it.
   */
  lemma DenominatorCountsKeys(similarity: Option<real>, review: Dict, format: real -> string)
    requires Valid(review)
    ensures |Report(similarity, review, format).keys| == |review.values.Keys + {ORIGINALITY_KEY}|
  {
    OneKeyMergeCount(OriginalityOnly(similarity, format), review);
  }

  /** Merging into a report holding only the originality key adds one key per review key, except that one. */
  lemma OneKeyMergeCount(start: Dict, review: Dict)
    requires Valid(start) && start.values.Keys == {ORIGINALITY_KEY} && Valid(review)
    ensures |Update(start, review).keys| == |review.values.Keys + {ORIGINALITY_KEY}|
  {
    UpdateKeyCount(start, review);
    assert start.values.Keys + review.values.Keys == review.values.Keys + {ORIGINALITY_KEY};
  }

  /** `x` added up `n` times. */
  function Times(n: nat, x: real): real {
    if n == 0 then 0.0 else Times(n - 1, x) + x
  }

  /** Adding `x` up `n` times is multiplying it by `n`. */
  lemma {:induction false} TimesIsProduct(n: nat, x: real)
    ensures Times(n, x) == (n as real) * x
  {
    if n > 0 {
      TimesIsProduct(n - 1, x);
      assert (n as real) * x == ((n - 1) as real) * x + x;
    }
  }

  /** The sum of n grades that each lie in [lo, hi] lies between n times lo and n times hi. */
  lemma {:induction false} GradeTotalBounds(entries: seq<Json>, lo: real, hi: real)
    requires forall i :: 0 <= i < |entries| ==> GradeOf(entries[i]).Success?
    requires forall i :: 0 <= i < |entries| ==> lo <= GradeOf(entries[i]).value <= hi
    ensures GradeTotal(entries).Success?
    ensures Times(|entries|, lo) <= GradeTotal(entries).value <= Times(|entries|, hi)
  {
    if entries != [] {
      var init := entries[..|entries| - 1];
      GradeTotalBounds(init, lo, hi);
    }
  }

  /** A total between n times lo and n times hi, divided by a positive n, lies in [lo, hi]. */
  lemma QuotientBounds(count: nat, total: real, lo: real, hi: real)
    requires count > 0 && Times(count, lo) <= total <= Times(count, hi)
    ensures lo <= total / (count as real) <= hi
  {
    TimesIsProduct(count, lo);
    TimesIsProduct(count, hi);
    var n := count as real;
    var m := total / n;
    assert m * n == total;
    assert (m - lo) * n == total - n * lo;
    assert (hi - m) * n == n * hi - total;
  }

  /** The mean is the sum of all grades over the number of keys. */
  lemma MeanIsAverage(report: Dict)
    requires Valid(report) && |report.keys| > 0 && Summarize(report).Success?
    ensures GradeTotal(Entries(report)).Success?
    ensures Summarize(report).value.mean == GradeTotal(Entries(report)).value / (|report.keys| as real)
  {
  }

  /** When every grade of the report lies within [lo, hi], so does the mean. */
  lemma MeanWithinGradeRange(report: Dict, lo: real, hi: real)
    requires Valid(report) && |report.keys| > 0 && Summarize(report).Success?
    requires forall k :: k in report.values ==> GradeOf(report.values[k]).Success?
    requires forall k :: k in report.values ==> lo <= GradeOf(report.values[k]).value <= hi
    ensures lo <= Summarize(report).value.mean <= hi
  {
    var entries := Entries(report);
    GradeTotalBounds(entries, lo, hi);
    MeanIsAverage(report);
    QuotientBounds(|report.keys|, GradeTotal(entries).value, lo, hi);
  }

  /** A sum that succeeds added every entry: each one has a grade that can be added. */
  lemma {:induction false} SummedEntriesAreGraded(entries: seq<Json>, i: nat)
    requires GradeTotal(entries).Success? && i < |entries|
    ensures GradeOf(entries[i]).Success?
  {
    var init := entries[..|entries| - 1];
    if i < |init| {
      SummedEntriesAreGraded(init, i);
    }
  }

  /**
   * Whatever report the review is merged into, if it has no correctness
   * entry of its own, the correctness grade returned is the review's, and a
   * number or a boolean.
   */
  lemma MergedCorrectness(start: Dict, review: Dict)
    requires Valid(start) && CORRECTNESS !in start.values && |start.keys| > 0
    requires Valid(review) && Summarize(Update(start, review)).Success?
    ensures var correctness := Summarize(Update(start, review)).value.correctness;
            CORRECTNESS in review.values && review.values[CORRECTNESS].Obj?
            && Get(review.values[CORRECTNESS].fields, "grade") == Some(correctness)
            && Addend(correctness).Some?
  {
    var report := Update(start, review);
    UpdateGet(start, review, CORRECTNESS);
    var i :| 0 <= i < |report.keys| && report.keys[i] == CORRECTNESS;
    SummedEntriesAreGraded(Entries(report), i);
  }

  /**
   * The correctness grade returned is the grade the review gave to
   * correctness, and it is a number or a boolean, never another JSON value.
   */
  lemma CorrectnessIsReviewGrade(similarity: Option<real>, review: Dict, format: real -> string)
    requires Valid(review)
    requires Summarize(Report(similarity, review, format)).Success?
    ensures var correctness := Summarize(Report(similarity, review, format)).value.correctness;
            CORRECTNESS in review.values && review.values[CORRECTNESS].Obj?
            && Get(review.values[CORRECTNESS].fields, "grade") == Some(correctness)
            && Addend(correctness).Some?
  {
    MergedCorrectness(OriginalityOnly(similarity, format), review);
  }

  /**
   * The originality entry stays in the report unless the review itself
   * carries the originality key, in which case the review's value replaces it.
   */
  lemma OriginalityEntryKept(similarity: Option<real>, review: Dict, format: real -> string)
    requires Valid(review)
    ensures Get(Report(similarity, review, format), ORIGINALITY_KEY)
         == if ORIGINALITY_KEY in review.values
            then Get(review, ORIGINALITY_KEY)
            else Some(Obj(OriginalityEntry(similarity, format)))
  {
    UpdateGet(OriginalityOnly(similarity, format), review, ORIGINALITY_KEY);
  }

  /** An unparseable reply is graded on originality alone, over four entries, with correctness 0. */
  lemma UnparseableReplyEvaluation(similarity: Option<real>, text: string,
                                   decode: string -> Option<Dict>, format: real -> string)
    requires FindBraceSpan(text).None?
          || decode(text[FindBraceSpan(text).value.0..FindBraceSpan(text).value.1]).None?
    ensures Summarize(Report(similarity, ParseReview(text, decode), format))
         == Success(Graded(GradeFor(similarity) as real / 4.0, Num(0.0)))
  {
    UndecodableGivesFallback(text, decode);
    var review := ParseReview(text, decode);
    FallbackEvaluation(similarity, review, format);
  }
}
