/** Validation of the body of a create-group request.  The body's four
    fields are checked by class-validator decorators before the service sees
    them; a body that passes decodes into the typed `CreateGroupDto` the
    service takes. */
module GroupDto {
  import opened Entities

  /** A field of the JSON body as received.  `Num` holds a finite number;
      NaN, infinities, booleans, objects and arrays are `OtherValue`. */
  datatype Field = Undefined | Null | Str(s: string) | Num(x: real) | OtherValue

  datatype RequestBody = RequestBody(
    name: Field,
    description: Field,
    contributionAmount: Field,
    frequency: Field)

  datatype CreateGroupDto = CreateGroupDto(
    name: string,
    description: Option<string>,
    contributionAmount: Amount,
    frequency: EqubFrequency)

  const MaxNameLength: nat := 100
  const MaxDescriptionLength: nat := 500

  /** The enum value of a frequency as it appears in a request. */
  function FrequencyName(f: EqubFrequency): (name: string)
    ensures ParseFrequency(name) == Some(f)
  {
    match f
    case Weekly => "weekly"
    case BiWeekly => "bi-weekly"
    case Monthly => "monthly"
  }

  /** `@IsEnum(EqubFrequency)`: only the three enum values are accepted. */
  function ParseFrequency(s: string): (r: Option<EqubFrequency>)
    ensures r.Some? <==> s == "weekly" || s == "bi-weekly" || s == "monthly"
  {
    if s == "weekly" then Some(Weekly)
    else if s == "bi-weekly" then Some(BiWeekly)
    else if s == "monthly" then Some(Monthly)
    else None
  }

  /** `@IsString() @IsNotEmpty() @MaxLength(100)` */
  predicate NameValid(v: Field): (ok: bool)
    ensures ok ==> v.Str?
    ensures v.Str? ==> (ok <==> 1 <= |v.s| <= MaxNameLength)
  {
    v.Str? && v.s != "" && |v.s| <= MaxNameLength
  }

  /** `@IsString() @IsOptional() @MaxLength(500)`: a null or missing value skips the other checks. */
  predicate DescriptionValid(v: Field): (ok: bool)
    ensures v.Undefined? || v.Null? ==> ok
    ensures v.Num? || v.OtherValue? ==> !ok
    ensures v.Str? ==> (ok <==> |v.s| <= MaxDescriptionLength)
  {
    v.Undefined? || v.Null? || (v.Str? && |v.s| <= MaxDescriptionLength)
  }

  /** `@IsNumber() @IsPositive()` */
  predicate AmountValid(v: Field): (ok: bool)
    ensures !v.Num? ==> !ok
    ensures v.Num? ==> (ok <==> v.x > 0.0)
  {
    v.Num? && v.x > 0.0
  }

  /** `@IsEnum(EqubFrequency) @IsNotEmpty()` */
  predicate FrequencyValid(v: Field): (ok: bool)
    ensures ok <==> v == Str("weekly") || v == Str("bi-weekly") || v == Str("monthly")
  {
    v.Str? && ParseFrequency(v.s).Some?
  }

  /** A body passes validation when every decorated field passes its own checks. */
  predicate IsValid(b: RequestBody): (ok: bool)
    ensures ok ==> b.name.Str? && b.contributionAmount.Num? && b.frequency.Str?
    ensures ok ==> !b.description.Num? && !b.description.OtherValue?
  {
    NameValid(b.name) && DescriptionValid(b.description) &&
    AmountValid(b.contributionAmount) && FrequencyValid(b.frequency)
  }

  /** The edges of each field's checks: the longest names and descriptions pass and one character
      more fails, an empty name fails, a zero or negative amount fails, and the enum values are
      matched exactly, case included. */
  lemma FieldBoundaries()
    ensures NameValid(Str(seq(100, _ => 'a'))) && !NameValid(Str(seq(101, _ => 'a')))
    ensures !NameValid(Str("")) && !NameValid(Null) && !NameValid(Num(1.0))
    ensures DescriptionValid(Str(seq(500, _ => 'a'))) && !DescriptionValid(Str(seq(501, _ => 'a')))
    ensures DescriptionValid(Undefined) && DescriptionValid(Null) && !DescriptionValid(Num(0.0))
    ensures AmountValid(Num(0.01)) && !AmountValid(Num(0.0)) && !AmountValid(Num(-5.0)) && !AmountValid(Str("100"))
    ensures FrequencyValid(Str("bi-weekly")) && !FrequencyValid(Str("Weekly")) && !FrequencyValid(Str(""))
    ensures !FrequencyValid(Undefined)
  {
  }

  /** The constraints a typed request satisfies. */
  predicate WellFormedDto(d: CreateGroupDto) {
    0 < |d.name| <= MaxNameLength &&
    (d.description.Some? ==> |d.description.value| <= MaxDescriptionLength) &&
    d.contributionAmount > 0.0
  }

  /** The typed request a body decodes to, if it passes validation. */
  function Decode(b: RequestBody): (r: Option<CreateGroupDto>)
    ensures r.Some? <==> IsValid(b)
    ensures r.Some? ==> WellFormedDto(r.value)
  {
    if !IsValid(b) then None
    else
      Some(CreateGroupDto(
        b.name.s,
        if b.description.Str? then Some(b.description.s) else None,
        b.contributionAmount.x,
        ParseFrequency(b.frequency.s).value))
  }

  /** The body a client sends for a typed request; an absent description is left out. */
  function Encode(d: CreateGroupDto): (b: RequestBody)
    ensures WellFormedDto(d) <==> IsValid(b)
    ensures WellFormedDto(d) ==> Decode(b) == Some(d)
  {
    RequestBody(
      Str(d.name),
      if d.description.Some? then Str(d.description.value) else Undefined,
      Num(d.contributionAmount),
      Str(FrequencyName(d.frequency)))
  }

  /** Apart from a null description, which reads as an absent one, a valid body is exactly the encoding of what it decodes to. */
  lemma DecodeThenEncode(b: RequestBody)
    requires IsValid(b) && !b.description.Null?
    ensures Encode(Decode(b).value) == b
  {
  }
}
