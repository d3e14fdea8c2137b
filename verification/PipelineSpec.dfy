/** The limited session as a function of its state: what each call yields, with every error in its place. */
module PipelineSpec {
  import opened Common
  import opened Streams
  import opened PipelineStages

  type U64 = n: nat | n <= U64_MAX

  datatype Limits = Limits(
    maxInput: U64, maxOutput: U64, maxIntermediate: nat, maxFinish: nat, maxFuel: U64, factor: U64, slack: U64)

  /** `push` and `ends` are the output validator: it refuses a record, or the end of the output. */
  datatype Chain<!S, !V> = Chain(
    filters: seq<Filter<S>>, limits: Limits, push: (V, Record) -> Option<V>, ends: V -> bool)

  /** A finished plugin keeps its last counter value, which only specifications look at. */
  datatype Slot<S> = Live(state: S, accounted: nat) | Taken(accounted: nat)

  datatype Pipe<S, V> = Pipe(slots: seq<Slot<S>>, stage: seq<nat>, input: nat, output: nat, fuel: nat, validator: V)

  predicate LiveFrom<S, V>(p: Pipe<S, V>, i: nat) {
    forall j :: i <= j < |p.slots| ==> p.slots[j].Live?
  }

  predicate Shaped<S, V>(c: Chain<S, V>, p: Pipe<S, V>) {
    |p.slots| == |p.stage| == |c.filters|
  }

  function RecordLen(r: Record): nat {
    |r.payload| + |r.separator|
  }

  function ExpansionLimitFor(l: Limits, input: nat): nat {
    Min(SaturatingAdd(SaturatingMul(input, l.factor), l.slack), l.maxOutput)
  }

  /** `current + added` when the addition and both output limits allow it. */
  function AddOutput(l: Limits, input: nat, current: nat, added: nat): Result<nat, Error> {
    var total := current + added;
    if total > U64_MAX || total > l.maxOutput then Err(OutputLimit)
    else if total > ExpansionLimitFor(l, input) then Err(ExpansionLimit)
    else Ok(total)
  }

  function AddFuel(l: Limits, fuel: nat, delta: nat): Result<nat, Error> {
    if fuel + delta > U64_MAX || fuel + delta > l.maxFuel then Err(FuelLimit) else Ok(fuel + delta)
  }

  /** A filter's answer under the fuel it is granted. */
  function Ask<S>(f: Filter<S>, s: S, payload: Bytes, remaining: nat): (S, Result<Outcome, Error>) {
    match f.denies(s, payload, remaining)
    case Some((s', e)) => (s', Err(e))
    case None => (f.step(s, payload).0, Ok(f.step(s, payload).1))
  }

  /** Filter `i` on one record. */
  function TransformAt<S,
      V>(c: Chain<S, V>, p: Pipe<S, V>, i: nat, record: Record): (r: Result<(Pipe<S, V>, Option<Record>), Error>)
    requires Shaped(c, p) && LiveFrom(p, i) && i < |c.filters|
    ensures r.Ok? ==> Shaped(c, r.value.0) && LiveFrom(r.value.0, i)
  {
    if p.fuel >= c.limits.maxFuel then Err(FuelLimit)
    else
      var (state, answer) := Ask(c.filters[i], p.slots[i].state, record.payload, c.limits.maxFuel - p.fuel);
      var counter := c.filters[i].fuel(state);
      match AddFuel(c.limits, p.fuel, SaturatingSub(counter, p.slots[i].accounted))
      case Err(e) => Err(e)
      case Ok(fuel) =>
        var p' := p.(slots := p.slots[i := Live(state, counter)], fuel := fuel);
        match answer
        case Err(e) => Err(e)
        case Ok(Drop) => Ok((p', None))
        case Ok(Emit(payload)) =>
          if |payload| > c.limits.maxIntermediate then Err(IntermediateLimit)
          else
            var next := record.(payload := payload);
            match AddOutput(c.limits, p.input, p.stage[i], RecordLen(next))
            case Err(e) => Err(e)
            case Ok(total) => Ok((p'.(stage := p.stage[i := total]), Some(next)))
  }

  /** A record that has passed every filter. */
  function Deliver<S, V>(c: Chain<S, V>, p: Pipe<S, V>, record: Record): Result<Pipe<S, V>, Error> {
    match c.push(p.validator, record)
    case None => Err(InvalidOutput)
    case Some(validator) =>
      match AddOutput(c.limits, p.input, p.output, RecordLen(record))
      case Err(e) => Err(e)
      case Ok(total) => Ok(p.(validator := validator, output := total))
  }

  function RouteFrom<S,
      V>(c: Chain<S, V>, p: Pipe<S, V>, i: nat, record: Record): (r: Result<(Pipe<S, V>, Option<Record>), Error>)
    requires Shaped(c, p) && LiveFrom(p, i) && i <= |c.filters|
    ensures r.Ok? ==> Shaped(c, r.value.0) && LiveFrom(r.value.0, i)
    ensures r.Ok? ==> forall j :: 0 <= j < i ==> r.value.0.slots[j] == p.slots[j]
    decreases |c.filters| - i
  {
    if i == |c.filters| then
      match Deliver(c, p, record)
      case Err(e) => Err(e)
      case Ok(p') => Ok((p', Some(record)))
    else
      match TransformAt(c, p, i, record)
      case Err(e) => Err(e)
      case Ok((p', None)) => Ok((p', None))
      case Ok((p', Some(next))) =>
        RouteFrom(c, p', i + 1, next)
  }

  function Process<S,
      V>(c: Chain<S, V>, p: Pipe<S, V>, record: Record, expired: bool): (r: Result<(Pipe<S, V>, Option<Record>), Error>)
    requires Shaped(c, p) && LiveFrom(p, 0)
    ensures r.Ok? ==> Shaped(c, r.value.0) && LiveFrom(r.value.0, 0)
  {
    var total := p.input + RecordLen(record);
    if expired then Err(DeadlineExceeded)
    else if total > U64_MAX || total > c.limits.maxInput then Err(InputLimit)
    else RouteFrom(c, p.(input := total), 0, record)
  }

  /** Filter `i` is finished and its trailing bytes go through the filters after it. */
  function FinishAt<S,
      V>(c: Chain<S, V>, p: Pipe<S, V>, i: nat, expired: bool): (r: Result<(Pipe<S, V>, Option<Record>), Error>)
    requires Shaped(c, p) && LiveFrom(p, i) && i < |c.filters|
    ensures r.Ok? ==> Shaped(c, r.value.0) && LiveFrom(r.value.0, i + 1)
  {
    var state := p.slots[i].state;
    if expired then Err(DeadlineExceeded)
    else if p.fuel >= c.limits.maxFuel then Err(FuelLimit)
    else if c.filters[i].deniesFinish(state, c.limits.maxFuel - p.fuel).Some? then
      Err(c.filters[i].deniesFinish(state, c.limits.maxFuel - p.fuel).value)
    else
      var (trailing, counter) := c.filters[i].finish(state);
      match AddFuel(c.limits, p.fuel, SaturatingSub(counter, p.slots[i].accounted))
      case Err(e) => Err(e)
      case Ok(fuel) =>
        var p' := p.(slots := p.slots[i := Taken(counter)], fuel := fuel);
        if |trailing| > c.limits.maxFinish then Err(FinishLimit)
        else if trailing == [] then Ok((p', None))
        else if |trailing| > c.limits.maxIntermediate then Err(IntermediateLimit)
        else
          match AddOutput(c.limits, p.input, p.stage[i], |trailing|)
          case Err(e) => Err(e)
          case Ok(total) => RouteFrom(c, p'.(stage := p.stage[i := total]), i + 1, Record(trailing, []))
  }

  function FinishFrom<S,
      V>(c: Chain<S, V>, p: Pipe<S, V>, i: nat, expired: nat -> bool): Result<(Pipe<S, V>, seq<Record>), Error>
    requires Shaped(c, p) && LiveFrom(p, i) && i <= |c.filters|
    decreases |c.filters| - i
  {
    if i == |c.filters| then
      if c.ends(p.validator) then Ok((p, [])) else Err(InvalidOutput)
    else
      match FinishAt(c, p, i, expired(i))
      case Err(e) => Err(e)
      case Ok((p', last)) =>
        match FinishFrom(c, p', i + 1, expired)
        case Err(e) => Err(e)
        case Ok((p'', rest)) => Ok((p'', (if last.None? then [] else [last.value]) + rest))
  }
}
