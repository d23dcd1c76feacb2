/**
 * Extraction of the review object from the reviewer's free text, and the
 * uniform fallback used when no object can be decoded
 * (`parse_llm_review_json`).
 */
module ReviewParser {
  import opened Wrappers
  import opened Seqs
  import opened JsonDict

  const CORRECTNESS := "Правильность"
  const OPTIMALITY := "Оптимальность"
  const STYLE := "Стиль"

  /** The comment of every criterion in the fallback review. */
  const PARSE_ERROR_COMMENT := "Ошибка парсинга ответа LLM."

  /**
   * A match of the pattern `\{.*\}` with DOTALL: `text[start..end]` opens
   * with `{` and closes with `}` (any characters, newlines included, between).
   */
  predicate IsBraceSpan(text: string, start: int, end: int) {
    0 <= start < end <= |text| && text[start] == '{' && text[end - 1] == '}'
  }

  /**
   * The span `re.search` reports: from the first `{` to the last `}`, present
   * only when that `{` comes before that `}`. No `{` precedes it and no `}`
   * follows it, and there is no span at all exactly when it is absent.
   */
  function FindBraceSpan(text: string): (r: Option<(nat, nat)>)
    ensures r.Some? ==> IsBraceSpan(text, r.value.0, r.value.1)
    ensures r.Some? ==> '{' !in text[..r.value.0] && '}' !in text[r.value.1..]
    ensures r.None? <==> forall i, j :: !IsBraceSpan(text, i, j)
  {
    match (FirstIndexOf(text, '{'), LastIndexOf(text, '}'))
    case (Some(i), Some(j)) =>
      if i < j then
        assert IsBraceSpan(text, i, j + 1);
        Some((i, j + 1))
      else
        NoSpanWhenLastCloseFirst(text, i, j);
        None
    case _ => None
  }

  /** When the last `}` stands before the first `{`, nothing matches. */
  lemma NoSpanWhenLastCloseFirst(text: string, first: nat, last: nat)
    requires first < |text| && '{' !in text[..first]
    requires last < |text| && '}' !in text[last + 1..]
    requires last <= first
    ensures forall i, j :: !IsBraceSpan(text, i, j)
  {
    forall i, j | IsBraceSpan(text, i, j) ensures false {
    }
  }

  /**
   * The span found is the one a backtracking regex search picks: every other
   * match starts no earlier and ends no later.
   */
  lemma MatchIsLeftmostLongest(text: string, start: nat, end: nat)
    requires FindBraceSpan(text) == Some((start, end))
    ensures forall i, j :: IsBraceSpan(text, i, j) ==> start <= i && j <= end
  {
    forall i, j | IsBraceSpan(text, i, j) ensures start <= i && j <= end {
    }
  }

  /** One criterion of the fallback review: grade 0 and the parse-error comment. */
  function FallbackEntry(): (e: Json)
    ensures e.Obj? && Valid(e.fields) && e.fields.keys == ["grade", "comment"]
    ensures Get(e.fields, "grade") == Some(Num(0.0))
    ensures Get(e.fields, "comment") == Some(Str(PARSE_ERROR_COMMENT))
  {
    Obj(Dict(["grade", "comment"], map["grade" := Num(0.0), "comment" := Str(PARSE_ERROR_COMMENT)]))
  }

  /** The review returned when no object could be extracted or decoded: the three criteria at grade 0. */
  function Fallback(): (f: Dict)
    ensures Valid(f) && f.keys == [CORRECTNESS, OPTIMALITY, STYLE]
    ensures forall k :: k in f.keys ==> Get(f, k) == Some(FallbackEntry())
  {
    Dict([CORRECTNESS, OPTIMALITY, STYLE],
         map[CORRECTNESS := FallbackEntry(), OPTIMALITY := FallbackEntry(), STYLE := FallbackEntry()])
  }

  /**
   * The parsed review: the decoded brace span, or the fallback when there is
   * no span or `decode` (standing for `json.loads`) rejects it.
   */
  function ParseReview(text: string, decode: string -> Option<Dict>): (r: Dict)
    ensures r == Fallback() || exists i, j :: IsBraceSpan(text, i, j) && decode(text[i..j]) == Some(r)
  {
    match FindBraceSpan(text)
    case None => Fallback()
    case Some((i, j)) =>
      match decode(text[i..j])
      case None => Fallback()
      case Some(obj) => obj
  }

  /** No brace span, or one that does not decode: the review is the fallback. */
  lemma UndecodableGivesFallback(text: string, decode: string -> Option<Dict>)
    requires FindBraceSpan(text).None?
          || decode(text[FindBraceSpan(text).value.0..FindBraceSpan(text).value.1]).None?
    ensures ParseReview(text, decode) == Fallback()
  {
  }

  /** In prose without `{` before and without `}` after, the span is exactly the embedded object. */
  lemma EmbeddedSpan(prefix: string, json: string, suffix: string)
    requires '{' !in prefix && '}' !in suffix
    requires |json| > 0 && json[0] == '{' && json[|json| - 1] == '}'
    ensures FindBraceSpan(prefix + json + suffix) == Some((|prefix|, |prefix| + |json|))
    ensures (prefix + json + suffix)[|prefix|..|prefix| + |json|] == json
  {
    var text := prefix + json + suffix;
    var start, end := |prefix|, |prefix| + |json|;
    assert text[..start] == prefix;
    assert text[end..] == suffix;
    assert text[start..end] == json;
    FirstIndexIs(text, '{', start);
    LastIndexIs(text, '}', end - 1);
  }

  /**
   * An object `json` written into prose (no `{` before it, no `}` after it)
   * is extracted exactly, so the text parses as the object alone would.
   */
  lemma EmbeddedObjectIsExtracted(prefix: string, json: string, suffix: string,
                                  decode: string -> Option<Dict>)
    requires '{' !in prefix && '}' !in suffix
    requires |json| > 0 && json[0] == '{' && json[|json| - 1] == '}'
    ensures FindBraceSpan(prefix + json + suffix) == Some((|prefix|, |prefix| + |json|))
    ensures ParseReview(prefix + json + suffix, decode) == ParseReview(json, decode)
    ensures ParseReview(json, decode) == if decode(json).Some? then decode(json).value else Fallback()
  {
    EmbeddedSpan(prefix, json, suffix);
    EmbeddedSpan([], json, []);
    assert [] + json + [] == json;
  }
}
