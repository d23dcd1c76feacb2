/**
 * The originality criterion: the similarity between the template and the
 * submission, as the embedding service reports it (or None when the service
 * gave no score), mapped to a grade and a comment by fixed thresholds.
 */
module Originality {
  import opened Wrappers
  import opened JsonDict

  /**
   * The thresholds are the exact values of the double literals 0.95 and 0.8,
   * so comparing a similarity (the exact value of a double) with them as
   * reals decides as the float comparison does.
   */
  const PLAGIARISM_THRESHOLD: real := 0.9499999999999999555910790149937383830547332763671875
  const RENAMING_THRESHOLD: real := 0.8000000000000000444089209850062616169452667236328125

  const NOT_ASSESSED_GRADE := 0
  const PLAGIARISM_GRADE := 1
  const RENAMING_GRADE := 2
  const ORIGINAL_GRADE := 5

  const NOT_ASSESSED_COMMENT := "Оценка не проводилась."
  const PLAGIARISM_COMMENT := "Код практически идентичен шаблону (плагиат)."
  const RENAMING_COMMENT := "Очень высокое сходство, вероятно, простое переименование."
  const ORIGINAL_COMMENT := "Код достаточно оригинален по структуре."
  const NO_SIMILARITY := "N/A"

  /**
   * The originality grade for a similarity: 0 exactly when there is no
   * score, and otherwise one of 1, 2 and 5.
   */
  function GradeFor(similarity: Option<real>): (g: int)
    ensures g == NOT_ASSESSED_GRADE <==> similarity.None?
    ensures similarity.Some? ==> g in {PLAGIARISM_GRADE, RENAMING_GRADE, ORIGINAL_GRADE}
  {
    match similarity
    case None => NOT_ASSESSED_GRADE
    case Some(x) =>
      if x > PLAGIARISM_THRESHOLD then PLAGIARISM_GRADE
      else if x > RENAMING_THRESHOLD then RENAMING_GRADE
      else ORIGINAL_GRADE
  }

  /** The comment that goes with the grade: each grade has its own comment. */
  function CommentFor(similarity: Option<real>): (c: string)
    ensures GradeFor(similarity) == NOT_ASSESSED_GRADE ==> c == NOT_ASSESSED_COMMENT
    ensures GradeFor(similarity) == PLAGIARISM_GRADE ==> c == PLAGIARISM_COMMENT
    ensures GradeFor(similarity) == RENAMING_GRADE ==> c == RENAMING_COMMENT
    ensures GradeFor(similarity) == ORIGINAL_GRADE ==> c == ORIGINAL_COMMENT
  {
    match similarity
    case None => NOT_ASSESSED_COMMENT
    case Some(x) =>
      if x > PLAGIARISM_THRESHOLD then PLAGIARISM_COMMENT
      else if x > RENAMING_THRESHOLD then RENAMING_COMMENT
      else ORIGINAL_COMMENT
  }

  /** The rendering of the similarity field: the formatted score, or "N/A". */
  function SimilarityText(similarity: Option<real>, format: real -> string): (t: string)
    ensures similarity.None? ==> t == NO_SIMILARITY
    ensures similarity.Some? ==> t == format(similarity.value)
  {
    if similarity.None? then NO_SIMILARITY else format(similarity.value)
  }

  /**
   * The originality report: the fields "grade", "comment" and "similarity" in
   * that order. `format` stands for the four-decimal rendering of the score.
   */
  function OriginalityEntry(similarity: Option<real>, format: real -> string): (entry: Dict)
    ensures Valid(entry) && entry.keys == ["grade", "comment", "similarity"]
    ensures Get(entry, "grade") == Some(Num(GradeFor(similarity) as real))
    ensures Get(entry, "comment") == Some(Str(CommentFor(similarity)))
    ensures Get(entry, "similarity") == Some(Str(SimilarityText(similarity, format)))
  {
    Dict(["grade", "comment", "similarity"],
         map["grade" := Num(GradeFor(similarity) as real),
             "comment" := Str(CommentFor(similarity)),
             "similarity" := Str(SimilarityText(similarity, format))])
  }

  /**
   * Builds the report as the evaluation does: the "not assessed" defaults
   * first, then each field overwritten when a score is present.
   */
  method ScoreOriginality(similarity: Option<real>, format: real -> string) returns (entry: Dict)
    ensures entry == OriginalityEntry(similarity, format)
  {
    entry := Dict(["grade", "comment", "similarity"],
                  map["grade" := Num(NOT_ASSESSED_GRADE as real),
                      "comment" := Str(NOT_ASSESSED_COMMENT),
                      "similarity" := Str(NO_SIMILARITY)]);
    if similarity.Some? {
      var x := similarity.value;
      entry := Set(entry, "similarity", Str(format(x)));
      var grade, comment;
      if x > PLAGIARISM_THRESHOLD {
        grade, comment := PLAGIARISM_GRADE, PLAGIARISM_COMMENT;
      } else if x > RENAMING_THRESHOLD {
        grade, comment := RENAMING_GRADE, RENAMING_COMMENT;
      } else {
        grade, comment := ORIGINAL_GRADE, ORIGINAL_COMMENT;
      }
      entry := Set(entry, "grade", Num(grade as real));
      entry := Set(entry, "comment", Str(comment));
    }
    assert entry.values == OriginalityEntry(similarity, format).values;
  }

  /** A more similar submission never gets a better originality grade. */
  lemma GradeAntitone(x: real, y: real)
    requires x <= y
    ensures GradeFor(Some(y)) <= GradeFor(Some(x))
  {
  }

  /** The three threshold bands. */
  lemma GradeBands(x: real)
    ensures x > PLAGIARISM_THRESHOLD ==> GradeFor(Some(x)) == PLAGIARISM_GRADE
    ensures RENAMING_THRESHOLD < x <= PLAGIARISM_THRESHOLD ==> GradeFor(Some(x)) == RENAMING_GRADE
    ensures x <= RENAMING_THRESHOLD ==> GradeFor(Some(x)) == ORIGINAL_GRADE
  {
  }
}
