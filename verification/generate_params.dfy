/** How the edge function reads its request before calling the model: the
    bearer credential, the question count, the language, the model name and
    the topic. */
module GenerateParams {
  import opened Common
  import opened Json
  import opened Text

  const BearerPrefix: string := "Bearer "
  const DefaultCount: int := 8
  const MinCount: int := 1
  const MaxCount: int := 15
  const DefaultLanguage: string := "es"
  const DefaultModel: string := "gpt-4o-mini"

  /** The credential of an `Authorization` header: the header with its
      7-character `"Bearer "` prefix removed, or nothing when the header is
      absent or does not start with that prefix (the comparison is case
      sensitive). */
  function BearerToken(header: Option<string>): (token: Option<string>)
    ensures token.Some? <==> header.Some? && |header.value| >= |BearerPrefix|
                             && header.value[..|BearerPrefix|] == BearerPrefix
    ensures token.Some? ==> header.value == BearerPrefix + token.value
  {
    if header.Some? && |header.value| >= 7 && header.value[..7] == BearerPrefix
    then Some(header.value[7..])
    else None
  }

  /** Prefixing a credential and parsing the header gives the credential back. */
  lemma BearerTokenRoundTrip(token: string)
    ensures BearerToken(Some(BearerPrefix + token)) == Some(token)
  {
    assert (BearerPrefix + token)[..7] == BearerPrefix;
    assert (BearerPrefix + token)[7..] == token;
  }

  /** `"Bearer "` alone carries an empty credential, which the handler
      treats as missing. */
  lemma BareBearerIsEmpty()
    ensures !Present(BearerToken(Some("Bearer ")))
  {
    assert "Bearer "[7..] == "";
  }

  predicate InCountRange(n: Option<Json>) {
    n.Some? && n.value.JNum? && MinCount <= n.value.n <= MaxCount
  }

  /** The number of questions asked for: the request's `numQuestions` when it
      is a number from 1 to 15, otherwise exactly 8. Out-of-range values are
      replaced by the default, not clamped to the nearer bound. */
  function EffectiveCount(n: Option<Json>): (count: int)
    ensures MinCount <= count <= MaxCount
    ensures InCountRange(n) ==> n == Some(JNum(count))
    ensures !InCountRange(n) ==> count == DefaultCount
  {
    if n.Some? && TypeOf(n.value) == "number" && 1 <= n.value.n <= 15
    then n.value.n
    else 8
  }

  /** 0, 16, a negative count, a count given as a string and a missing count
      all become 8. */
  lemma OutOfRangeCountIsDefault(k: int)
    requires k < MinCount || k > MaxCount
    ensures EffectiveCount(Some(JNum(k))) == 8
    ensures EffectiveCount(Some(JStr("5"))) == 8
    ensures EffectiveCount(None) == 8
  {
  }

  /** `(value ?? fallback).trim() || fallback`: the trimmed value, or the
      fallback when the value is absent or whitespace only. */
  function TrimmedOr(value: Option<string>, fallback: string): (r: string)
    ensures value.Some? && !IsBlank(value.value) ==> r == Trim(value.value) && r != ""
    ensures value.Some? && IsBlank(value.value) ==> r == fallback
    ensures value.None? ==> r == if IsBlank(fallback) then fallback else Trim(fallback)
  {
    var t := Trim(value.GetOr(fallback));
    TrimEmptyIffBlank(value.GetOr(fallback));
    TrimEmptyIffBlank(fallback);
    if t == "" then fallback else t
  }

  function Language(value: Option<string>): string {
    TrimmedOr(value, DefaultLanguage)
  }

  function ModelName(value: Option<string>): string {
    TrimmedOr(value, DefaultModel)
  }

  lemma DefaultsAreTrimmed()
    ensures !IsBlank(DefaultLanguage) && Trim(DefaultLanguage) == DefaultLanguage
    ensures !IsBlank(DefaultModel) && Trim(DefaultModel) == DefaultModel
  {
    assert !IsWhitespace(DefaultLanguage[0]) && !IsWhitespace(DefaultModel[0]);
    assert TrimStart(DefaultLanguage) == DefaultLanguage;
    assert TrimStart(DefaultModel) == DefaultModel;
  }

  /** Language and model are never empty: each is the caller's trimmed
      value, or `"es"` / `"gpt-4o-mini"` when that is absent or blank. */
  lemma LanguageAndModelDefaults(language: Option<string>, model: Option<string>)
    ensures Language(language) != "" && ModelName(model) != ""
    ensures Language(language) ==
            if language.Some? && !IsBlank(language.value) then Trim(language.value) else DefaultLanguage
    ensures ModelName(model) ==
            if model.Some? && !IsBlank(model.value) then Trim(model.value) else DefaultModel
  {
    DefaultsAreTrimmed();
    TrimmedOrTrimmedFallback(language, DefaultLanguage);
    TrimmedOrTrimmedFallback(model, DefaultModel);
  }

  /** With a non-blank, already trimmed fallback the result is never empty:
      the trimmed value when it is present and not blank, else the fallback. */
  lemma TrimmedOrTrimmedFallback(value: Option<string>, fallback: string)
    requires !IsBlank(fallback) && Trim(fallback) == fallback
    ensures TrimmedOr(value, fallback) != ""
    ensures TrimmedOr(value, fallback) ==
            if value.Some? && !IsBlank(value.value) then Trim(value.value) else fallback
  {
    TrimEmptyIffBlank(fallback);
  }

  /** `(body.topic ?? project.topic ?? "").trim()`. */
  function ResolveTopic(requested: Option<string>, stored: Option<string>): (topic: string)
    ensures requested.Some? ==> topic == Trim(requested.value)
    ensures requested.None? && stored.Some? ==> topic == Trim(stored.value)
    ensures requested.None? && stored.None? ==> topic == ""
  {
    Trim(requested.GetOr(stored.GetOr("")))
  }

  /** A topic given in the request wins even when it is blank: the project's
      stored topic is then not used and the resolved topic is empty. */
  lemma BlankRequestedTopicHasNoFallback(requested: string, stored: Option<string>)
    requires IsBlank(requested)
    ensures ResolveTopic(Some(requested), stored) == ""
  {
    TrimEmptyIffBlank(requested);
  }
}
