/** Parsing one field of a cron expression: `*`, or a list of values, ranges and steps. */
module CronFields {
  import opened Common
  import opened Text

  datatype FieldError = NotANumber | BadStep | OutOfBounds

  predicate OnStep(x: int, a: int, step: int)
    requires step > 0
  {
    (x - a) % step == 0
  }

  // Python's range(a, b + 1, step).
  function Range(a: int, b: int, step: int): set<int>
    requires step > 0
  {
    set x | a <= x <= b && OnStep(x, a, step)
  }

  // The bounds of a stepped part: `*`, `a-b` or a start up to the maximum.
  function StepBounds(base: string, minimum: int, maximum: int): Result<(int, int), FieldError> {
    if base == "*" then Ok((minimum, maximum))
    else if '-' in base then
      var (a, b) := SplitOnce(base, '-');
      match (ParseInt(a), ParseInt(b))
      case (Some(x), Some(y)) => Ok((x, y))
      case _ => Err(NotANumber)
    else
      match ParseInt(base)
      case Some(x) => Ok((x, maximum))
      case None => Err(NotANumber)
  }

  function ParsePart(part: string, minimum: int, maximum: int): Result<set<int>, FieldError> {
    if '/' in part then
      var (base, raw) := SplitOnce(part, '/');
      match ParseInt(raw)
      case None => Err(NotANumber)
      case Some(step) =>
        if step <= 0 then Err(BadStep) else
        var bounds := StepBounds(base, minimum, maximum);
        if bounds.Err? then Err(bounds.error) else Ok(Range(bounds.value.0, bounds.value.1, step))
    else if '-' in part then
      var (a, b) := SplitOnce(part, '-');
      match (ParseInt(a), ParseInt(b))
      case (Some(x), Some(y)) => Ok(Range(x, y, 1))
      case _ => Err(NotANumber)
    else
      match ParseInt(part)
      case Some(x) => Ok({x})
      case None => Err(NotANumber)
  }

  predicate InBounds(values: set<int>, minimum: int, maximum: int) {
    values != {} && forall x :: x in values ==> minimum <= x <= maximum
  }

  // Values that were read are accepted when there are some and all lie within the bounds.
  function Bounded(values: Result<set<int>, FieldError>, minimum: int, maximum: int): Result<set<int>, FieldError> {
    if values.Ok? && !InBounds(values.value, minimum, maximum) then Err(OutOfBounds) else values
  }

  // The values of all parts together; the first part that cannot be read decides the error.
  function ParseParts(parts: seq<string>, minimum: int, maximum: int): Result<set<int>, FieldError> {
    if parts == [] then Ok({}) else
    match ParseParts(parts[..|parts| - 1], minimum, maximum)
    case Err(e) => Err(e)
    case Ok(before) =>
      match ParsePart(parts[|parts| - 1], minimum, maximum)
      case Err(e) => Err(e)
      case Ok(values) => Ok(before + values)
  }

  lemma {:induction false} ParsePartsStops(parts: seq<string>, k: nat, minimum: int, maximum: int)
    requires k <= |parts| && ParseParts(parts[..k], minimum, maximum).Err?
    ensures ParseParts(parts, minimum, maximum) == ParseParts(parts[..k], minimum, maximum)
    decreases |parts|
  {
    if k < |parts| {
      assert parts[..|parts| - 1][..k] == parts[..k];
      ParsePartsStops(parts[..|parts| - 1], k, minimum, maximum);
    } else {
      assert parts[..k] == parts;
    }
  }

  method ParseField(field: string, minimum: int, maximum: int) returns (reply: Result<set<int>, FieldError>)
    requires minimum <= maximum
    ensures field == "*" ==> reply == Ok(Range(minimum, maximum, 1))
    ensures field != "*" ==> reply == Bounded(ParseParts(Split(field, ','), minimum, maximum), minimum, maximum)
    ensures reply.Ok? ==> InBounds(reply.value, minimum, maximum)
  {
    if field == "*" {
      assert OnStep(minimum, minimum, 1) && minimum in Range(minimum, maximum, 1);
      return Ok(Range(minimum, maximum, 1));
    }
    var parts := Split(field, ',');
    var values: set<int> := {};
    for i := 0 to |parts|
      invariant ParseParts(parts[..i], minimum, maximum) == Ok(values)
    {
      assert parts[..i + 1][..i] == parts[..i];
      var part := ParsePart(parts[i], minimum, maximum);
      if part.Err? {
        ParsePartsStops(parts, i + 1, minimum, maximum);
        return Err(part.error);
      }
      values := values + part.value;
    }
    assert parts[..|parts|] == parts;
    if !InBounds(values, minimum, maximum) { return Err(OutOfBounds); }
    return Ok(values);
  }

  // --------------------------------------------------------------- meaning

  // What an operator can write in a field, and the values it stands for.
  datatype Part =
    | Value(n: nat)
    | Between(a: nat, b: nat)
    | Every(step: nat)
    | EveryFrom(a: nat, step: nat)
    | EveryBetween(a: nat, b: nat, step: nat)
  {
    predicate Valid() { !Value? && !Between? ==> step > 0 }

    function Text(): string {
      match this
      case Value(n) => Decimal(n)
      case Between(a, b) => Decimal(a) + ['-'] + Decimal(b)
      case Every(step) => "*" + ['/'] + Decimal(step)
      case EveryFrom(a, step) => Decimal(a) + ['/'] + Decimal(step)
      case EveryBetween(a, b, step) => Decimal(a) + ['-'] + Decimal(b) + ['/'] + Decimal(step)
    }

    ghost predicate Means(x: int, minimum: int, maximum: int)
      requires Valid()
    {
      match this
      case Value(n) => x == n
      case Between(a, b) => a <= x <= b
      case Every(step) => minimum <= x <= maximum && (x - minimum) % step == 0
      case EveryFrom(a, step) => a <= x <= maximum && (x - a) % step == 0
      case EveryBetween(a, b, step) => a <= x <= b && (x - a) % step == 0
    }
  }

  // No character of a number is a separator.
  lemma NumbersHaveNoSeparators(n: nat)
    ensures '-' !in Decimal(n) && '/' !in Decimal(n) && ',' !in Decimal(n) && '*' !in Decimal(n)
  {
    DecimalDigits(n);
  }

  lemma StepText(base: string, step: nat, minimum: int, maximum: int)
    requires '/' !in base && step > 0
    ensures ParsePart(base + ['/'] + Decimal(step), minimum, maximum) ==
              var bounds := StepBounds(base, minimum, maximum);
              if bounds.Err? then Err(bounds.error) else Ok(Range(bounds.value.0, bounds.value.1, step))
  {
    SplitOnceAt(base, '/', Decimal(step));
    ParseIntDecimal(step);
  }

  // A step that is no positive number makes the part unreadable, whatever its base.
  lemma StepsAreNumbers(base: string, raw: string, minimum: int, maximum: int)
    requires '/' !in base
    ensures ParseInt(raw).None? ==> ParsePart(base + ['/'] + raw, minimum, maximum) == Err(NotANumber)
    ensures ParseInt(raw).Some? && ParseInt(raw).value <= 0 ==>
              ParsePart(base + ['/'] + raw, minimum, maximum) == Err(BadStep)
  {
    SplitOnceAt(base, '/', raw);
  }

  lemma RangeText(a: nat, b: nat, minimum: int, maximum: int)
    ensures var s := Decimal(a) + ['-'] + Decimal(b);
            && '/' !in s && ',' !in s && '-' in s && s != "*"
            && SplitOnce(s, '-') == (Decimal(a), Decimal(b))
            && StepBounds(s, minimum, maximum) == Ok((a, b))
  {
    NumbersHaveNoSeparators(a);
    NumbersHaveNoSeparators(b);
    SplitOnceAt(Decimal(a), '-', Decimal(b));
    ParseIntDecimal(a);
    ParseIntDecimal(b);
    assert (Decimal(a) + ['-'] + Decimal(b))[0] == Decimal(a)[0];
  }

  lemma ValueText(n: nat, minimum: int, maximum: int)
    ensures ',' !in Decimal(n) && ParsePart(Decimal(n), minimum, maximum) == Ok({n as int})
  {
    NumbersHaveNoSeparators(n);
    ParseIntDecimal(n);
  }

  lemma BetweenText(a: nat, b: nat, minimum: int, maximum: int)
    ensures var s := Decimal(a) + ['-'] + Decimal(b);
            ',' !in s && ParsePart(s, minimum, maximum) == Ok(Range(a, b, 1))
  {
    RangeText(a, b, minimum, maximum);
    ParseIntDecimal(a);
    ParseIntDecimal(b);
  }

  lemma EveryText(step: nat, minimum: int, maximum: int)
    requires step > 0
    ensures var s := "*" + ['/'] + Decimal(step);
            ',' !in s && ParsePart(s, minimum, maximum) == Ok(Range(minimum, maximum, step))
  {
    NumbersHaveNoSeparators(step);
    StepText("*", step, minimum, maximum);
  }

  lemma EveryFromText(a: nat, step: nat, minimum: int, maximum: int)
    requires step > 0
    ensures var s := Decimal(a) + ['/'] + Decimal(step);
            ',' !in s && ParsePart(s, minimum, maximum) == Ok(Range(a, maximum, step))
  {
    NumbersHaveNoSeparators(a);
    NumbersHaveNoSeparators(step);
    ParseIntDecimal(a);
    StepText(Decimal(a), step, minimum, maximum);
  }

  lemma EveryBetweenText(a: nat, b: nat, step: nat, minimum: int, maximum: int)
    requires step > 0
    ensures var s := Decimal(a) + ['-'] + Decimal(b) + ['/'] + Decimal(step);
            ',' !in s && ParsePart(s, minimum, maximum) == Ok(Range(a, b, step))
  {
    RangeText(a, b, minimum, maximum);
    NumbersHaveNoSeparators(step);
    StepText(Decimal(a) + ['-'] + Decimal(b), step, minimum, maximum);
  }

  lemma InRange(x: int, a: int, b: int, step: int)
    requires step > 0
    ensures x in Range(a, b, step) <==> a <= x <= b && (x - a) % step == 0
  {
    if a <= x <= b && (x - a) % step == 0 { assert OnStep(x, a, step); }
  }

  // The values of a part as a set.
  function ValuesOf(p: Part, minimum: int, maximum: int): set<int>
    requires p.Valid()
  {
    match p
    case Value(n) => {n as int}
    case Between(a, b) => Range(a, b, 1)
    case Every(step) => Range(minimum, maximum, step)
    case EveryFrom(a, step) => Range(a, maximum, step)
    case EveryBetween(a, b, step) => Range(a, b, step)
  }

  lemma ValuesMean(p: Part, x: int, minimum: int, maximum: int)
    requires p.Valid()
    ensures x in ValuesOf(p, minimum, maximum) <==> p.Means(x, minimum, maximum)
  {
    match p
    case Value(n) =>
    case Between(a, b) => InRange(x, a, b, 1);
    case Every(step) => InRange(x, minimum, maximum, step);
    case EveryFrom(a, step) => InRange(x, a, maximum, step);
    case EveryBetween(a, b, step) => InRange(x, a, b, step);
  }

  // Every part reads back as exactly the values it means.
  lemma PartReadsBack(p: Part, minimum: int, maximum: int)
    requires p.Valid()
    ensures ',' !in p.Text()
    ensures ParsePart(p.Text(), minimum, maximum) == Ok(ValuesOf(p, minimum, maximum))
    ensures forall x :: x in ValuesOf(p, minimum, maximum) <==> p.Means(x, minimum, maximum)
  {
    match p {
      case Value(n) => ValueText(n, minimum, maximum);
      case Between(a, b) => BetweenText(a, b, minimum, maximum);
      case Every(step) => EveryText(step, minimum, maximum);
      case EveryFrom(a, step) => EveryFromText(a, step, minimum, maximum);
      case EveryBetween(a, b, step) => EveryBetweenText(a, b, step, minimum, maximum);
    }
    forall x ensures x in ValuesOf(p, minimum, maximum) <==> p.Means(x, minimum, maximum) {
      ValuesMean(p, x, minimum, maximum);
    }
  }

  function Texts(parts: seq<Part>): seq<string> {
    if parts == [] then [] else Texts(parts[..|parts| - 1]) + [parts[|parts| - 1].Text()]
  }

  ghost predicate AnyMeans(parts: seq<Part>, x: int, minimum: int, maximum: int)
    requires forall p :: p in parts ==> p.Valid()
  {
    exists i :: 0 <= i < |parts| && parts[i].Means(x, minimum, maximum)
  }

  lemma AnyMeansLast(parts: seq<Part>, x: int, minimum: int, maximum: int)
    requires parts != [] && forall p :: p in parts ==> p.Valid()
    ensures AnyMeans(parts, x, minimum, maximum) <==>
              AnyMeans(parts[..|parts| - 1], x, minimum, maximum) || parts[|parts| - 1].Means(x, minimum, maximum)
  {
    var before := parts[..|parts| - 1];
    if AnyMeans(before, x, minimum, maximum) {
      var i :| 0 <= i < |before| && before[i].Means(x, minimum, maximum);
      assert parts[i].Means(x, minimum, maximum);
    }
    if AnyMeans(parts, x, minimum, maximum) {
      var i :| 0 <= i < |parts| && parts[i].Means(x, minimum, maximum);
      if i < |before| { assert before[i].Means(x, minimum, maximum); }
    }
  }

  // The union step, with the parts' texts out of sight.
  lemma PartsAppend(texts: seq<string>, text: string, minimum: int, maximum: int)
    requires ParseParts(texts, minimum, maximum).Ok? && ParsePart(text, minimum, maximum).Ok?
    ensures ParseParts(texts + [text], minimum, maximum)
              == Ok(ParseParts(texts, minimum, maximum).value + ParsePart(text, minimum, maximum).value)
  {
    assert (texts + [text])[..|texts|] == texts;
  }

  lemma {:induction false} PartsReadBack(parts: seq<Part>, minimum: int, maximum: int)
    requires forall p :: p in parts ==> p.Valid()
    ensures |Texts(parts)| == |parts| && forall t :: t in Texts(parts) ==> ',' !in t
    ensures ParseParts(Texts(parts), minimum, maximum).Ok?
    ensures forall x :: x in ParseParts(Texts(parts), minimum, maximum).value <==> AnyMeans(parts, x, minimum, maximum)
  {
    if parts != [] {
      var before, last := parts[..|parts| - 1], parts[|parts| - 1];
      PartsReadBack(before, minimum, maximum);
      PartReadsBack(last, minimum, maximum);
      PartsAppend(Texts(before), last.Text(), minimum, maximum);
      forall x
        ensures x in ParseParts(Texts(parts), minimum, maximum).value <==> AnyMeans(parts, x, minimum, maximum)
      {
        AnyMeansLast(parts, x, minimum, maximum);
      }
    }
  }

  // A written field stands for the values its parts mean, and is refused exactly when they mean
  // none or one out of bounds.
  lemma FieldMeansItsParts(parts: seq<Part>, minimum: int, maximum: int) returns (values: set<int>)
    requires parts != [] && forall p :: p in parts ==> p.Valid()
    ensures ParseParts(Split(Join(Texts(parts), ','), ','), minimum, maximum) == Ok(values)
    ensures forall x :: x in values <==> AnyMeans(parts, x, minimum, maximum)
    ensures Bounded(Ok(values), minimum, maximum).Ok? <==>
              (exists x :: AnyMeans(parts, x, minimum, maximum))
              && forall x :: AnyMeans(parts, x, minimum, maximum) ==> minimum <= x <= maximum
  {
    PartsReadBack(parts, minimum, maximum);
    SplitJoin(Texts(parts), ',');
    values := ParseParts(Texts(parts), minimum, maximum).value;
    BoundedMeans(parts, values, minimum, maximum);
  }

  lemma BoundedMeans(parts: seq<Part>, values: set<int>, minimum: int, maximum: int)
    requires forall p :: p in parts ==> p.Valid()
    requires forall x :: x in values <==> AnyMeans(parts, x, minimum, maximum)
    ensures Bounded(Ok(values), minimum, maximum).Ok? <==>
              (exists x :: AnyMeans(parts, x, minimum, maximum))
              && forall x :: AnyMeans(parts, x, minimum, maximum) ==> minimum <= x <= maximum
  {
    if values != {} {
      var x := AnElement(values);
      assert AnyMeans(parts, x, minimum, maximum);
    }
  }
}
