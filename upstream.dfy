/**
 * One review record as the upstream API delivers it (ReviewInDto), and the
 * Bean Validation constraints declared on it: @NotBlank on id and source,
 * @Min(1) @Max(5) on rating.
 */
module Upstream {
  import opened Wrappers
  import opened JavaText
  import opened Schema

  /** Every component is a nullable Java reference. The review date is the
      already-decoded LocalDateTime. */
  datatype ReviewInDto = ReviewInDto(
    id: Option<string>,
    source: Option<string>,
    author: Option<string>,
    rating: Option<int>,
    content: Option<string>,
    reviewDate: Option<Timestamp>,
    tags: Option<string>)

  /** The constraint annotations that can be violated. */
  datatype Constraint = IdNotBlank | SourceNotBlank | RatingMin | RatingMax

  /** @NotBlank: not null and at least one non-whitespace character. */
  predicate NotBlank(s: Option<string>) {
    s.Some? && !IsBlank(s.value)
  }

  /** The set of violations Validator.validate reports for a record. A null
      Integer satisfies both @Min and @Max. */
  function Violations(r: ReviewInDto): (v: set<Constraint>)
    ensures IdNotBlank in v <==> r.id.None? || IsBlank(r.id.value)
    ensures SourceNotBlank in v <==> r.source.None? || IsBlank(r.source.value)
    ensures RatingMin in v <==> r.rating.Some? && r.rating.value < 1
    ensures RatingMax in v <==> r.rating.Some? && r.rating.value > 5
  {
    (if NotBlank(r.id) then {} else {IdNotBlank})
    + (if NotBlank(r.source) then {} else {SourceNotBlank})
    + (if r.rating.Some? && r.rating.value < 1 then {RatingMin} else {})
    + (if r.rating.Some? && r.rating.value > 5 then {RatingMax} else {})
  }

  /** A record passes validation when no constraint is violated. */
  predicate IsValid(r: ReviewInDto) {
    Violations(r) == {}
  }

  /** Validity, stated field by field. */
  lemma ValidIff(r: ReviewInDto)
    ensures IsValid(r) <==>
      && r.id.Some? && (exists i :: 0 <= i < |r.id.value| && !IsWhitespace(r.id.value[i]))
      && r.source.Some? && (exists i :: 0 <= i < |r.source.value| && !IsWhitespace(r.source.value[i]))
      && (r.rating.None? || 1 <= r.rating.value <= 5)
  {
    if IsValid(r) {
      assert IdNotBlank !in Violations(r);
      assert SourceNotBlank !in Violations(r);
    } else {
      var c :| c in Violations(r);
    }
  }

  /** The rating bounds are inclusive: 1 and 5 pass, 0 and 6 do not, and an
      absent rating passes. */
  lemma RatingBoundary(r: ReviewInDto)
    requires NotBlank(r.id) && NotBlank(r.source)
    ensures r.rating == Some(1) ==> IsValid(r)
    ensures r.rating == Some(5) ==> IsValid(r)
    ensures r.rating == None ==> IsValid(r)
    ensures r.rating == Some(0) ==> !IsValid(r)
    ensures r.rating == Some(6) ==> !IsValid(r)
  {
    if r.rating == Some(0) { assert RatingMin in Violations(r); }
    if r.rating == Some(6) { assert RatingMax in Violations(r); }
  }

  /** author, content, reviewDate and tags carry no constraint. */
  lemma FreeFieldsIrrelevant(r: ReviewInDto, author: Option<string>, content: Option<string>,
                             reviewDate: Option<Timestamp>, tags: Option<string>)
    ensures IsValid(r) == IsValid(r.(author := author, content := content,
                                      reviewDate := reviewDate, tags := tags))
  {
  }

  /** A blank id or source is rejected, unlike a mere null check. */
  lemma BlankIdRejected(r: ReviewInDto)
    requires r.id == Some(" \t")
    ensures !IsValid(r)
  {
    assert IdNotBlank in Violations(r);
  }
}
