/**
 The disk quota shared by all spools: a counter that spools raise by compare-and-exchange in a retry loop and
 lower by an atomic subtraction, in any interleaving, and the life of a spool, which has to give back what it
 reserved whichever way it ends.
 */
module SpoolQuota {
  import opened Common

  datatype Refusal = Overflow | CapacityExceeded

  type U64 = n: nat | n <= U64_MAX

  /** A reservation covers at least the overhead of one frame. */
  type Positive = n: nat | n > 0 witness 1

  /**
   A spool that has read the counter, one that was refused, and one that was granted its bytes. Of the last,
   `field` is its own `reserved_bytes`; `open` until it is turned into a body or aborted, `owned` until it is
   dropped; `task` is what the streaming task has taken over; `releases` counts the releases so far.
   */
  datatype Spooler =
    | Wanting(bytes: Positive, seen: nat)
    | Refused(why: Refusal)
    | Spool(granted: Positive, field: nat, open: bool, owned: bool, task: Option<nat>, releases: nat)

  datatype State = State(max: U64, reserved: nat, spoolers: map<nat, Spooler>)

  /**
   `HandOver` is the part of `into_body` without suspension, `Abort` that of `abort`; `GiveUp` stands for
   either of them failing or being cancelled before it, which leaves only the drop.
   */
  datatype Event =
    | Load(who: nat, bytes: Positive) | Exchange(who: nat, spurious: bool)
    | HandOver(who: nat) | Abort(who: nat) | GiveUp(who: nat) | Drop(who: nat) | TaskEnds(who: nat)

  function New(max: U64): State {
    State(max, 0, map[])
  }

  /** What the loop does with the value it has just seen. */
  function Attempt(max: nat, bytes: Positive, seen: nat): Spooler {
    if seen + bytes > U64_MAX then Refused(Overflow)
    else if seen + bytes > max then Refused(CapacityExceeded)
    else Wanting(bytes, seen)
  }

  /** Atomic subtraction in a machine word. */
  function Subtract(a: nat, b: nat): nat {
    if a >= b then a - b else SaturatingSub(a + U64_MAX + 1, b)
  }

  /** `spool` after `who` has released `bytes`. */
  function Released(s: State, who: nat, bytes: nat, spool: Spooler): State
    requires spool.Spool?
  {
    s.(reserved := Subtract(s.reserved, bytes),
       spoolers := s.spoolers[who := spool.(releases := spool.releases + 1)])
  }

  function Updated(s: State, who: nat, spool: Spooler): State {
    s.(spoolers := s.spoolers[who := spool])
  }

  /** One stretch between suspensions; a weak exchange may fail for no reason. */
  function Step(s: State, e: Event): State {
    if e.Load? then
      if e.who in s.spoolers then s else Updated(s, e.who, Attempt(s.max, e.bytes, s.reserved))
    else if e.who !in s.spoolers then s
    else if s.spoolers[e.who].Wanting? then (if e.Exchange? then TryExchange(s, e.who, e.spurious) else s)
    else if s.spoolers[e.who].Spool? then LifeStep(s, e, s.spoolers[e.who])
    else s
  }

  function TryExchange(s: State, who: nat, spurious: bool): State
    requires who in s.spoolers && s.spoolers[who].Wanting?
  {
    var (bytes, seen) := (s.spoolers[who].bytes, s.spoolers[who].seen);
    if s.reserved == seen && !spurious then
      s.(reserved := seen + bytes, spoolers := s.spoolers[who := Spool(bytes, bytes, true, true, None, 0)])
    else Updated(s, who, Attempt(s.max, bytes, s.reserved))
  }

  function LifeStep(s: State, e: Event, spool: Spooler): State
    requires spool.Spool?
  {
    match e
    case HandOver(who) =>
      if !spool.open then s else Updated(s, who, spool.(open := false, field := 0, task := Some(spool.field)))
    case Abort(who) =>
      if !spool.open then s else Released(s, who, spool.field, spool.(open := false, field := 0))
    case GiveUp(who) => Updated(s, who, spool.(open := false))
    case Drop(who) =>
      if !spool.owned then s
      else if spool.field == 0 then Updated(s, who, spool.(open := false, owned := false))
      else Released(s, who, spool.field, spool.(open := false, owned := false, field := 0))
    case TaskEnds(who) =>
      if spool.task.None? then s else Released(s, who, spool.task.value, spool.(task := None))
    case _ => s
  }

  function Exec(max: U64, run: seq<Event>): State {
    if run == [] then New(max) else Step(Exec(max, run[..|run| - 1]), run[|run| - 1])
  }

  // ---- the life of a spool -------------------------------------------------------------------------

  /**
   The reservation is in one place at a time: in the spool, with its task, or given back, once. While the spool
   is open it is in the spool, and it cannot stay there when the spool is gone.
   */
  predicate InOnePlace(spool: Spooler) {
    spool.Spool? ==>
      && (|| (spool.field == spool.granted && spool.task.None? && spool.releases == 0)
          || (spool.field == 0 && spool.task == Some(spool.granted) && spool.releases == 0)
          || (spool.field == 0 && spool.task.None? && spool.releases == 1))
      && (spool.open ==> spool.owned && spool.field == spool.granted)
      && (!spool.owned ==> spool.field == 0)
  }

  function Outstanding(spooler: Spooler): nat {
    if spooler.Spool? && spooler.releases == 0 then spooler.granted else 0
  }

  ghost function Held(spoolers: map<nat, Spooler>): map<nat, nat> {
    map who | who in spoolers :: Outstanding(spoolers[who])
  }

  /**
   The counter is the sum of what is held, within the quota; whoever still wants bytes saw them fit; and every
   reservation is in one place.
   */
  ghost predicate Inv(s: State) {
    && s.reserved == Sum(Held(s.spoolers)) <= s.max
    && (forall who :: who in s.spoolers && s.spoolers[who].Wanting? ==>
          s.spoolers[who].seen + s.spoolers[who].bytes <= s.max)
    && (forall who :: who in s.spoolers ==> InOnePlace(s.spoolers[who]))
  }

  lemma {:induction false} HeldUpdate(spoolers: map<nat, Spooler>, who: nat, next: Spooler)
    ensures Sum(Held(spoolers[who := next])) + (if who in spoolers then Outstanding(spoolers[who]) else 0) ==
            Sum(Held(spoolers)) + Outstanding(next)
  {
    hide Sum;
    assert Held(spoolers[who := next]) == Held(spoolers)[who := Outstanding(next)];
    SumUpdate(Held(spoolers), who, Outstanding(next));
  }

  lemma {:induction false} HeldCovers(spoolers: map<nat, Spooler>, who: nat)
    requires who in spoolers
    ensures Outstanding(spoolers[who]) <= Sum(Held(spoolers))
  {
    SumAtLeast(Held(spoolers), who);
  }

  lemma {:induction false} StepKeeps(s: State, e: Event)
    requires Inv(s)
    ensures Inv(Step(s, e))
  {
    hide Sum, Held;
    var next := Step(s, e);
    if e.who in s.spoolers { HeldCovers(s.spoolers, e.who); }
    if e.who in next.spoolers {
      HeldUpdate(s.spoolers, e.who, next.spoolers[e.who]);
      assert e.who in s.spoolers ==> s.spoolers[e.who := s.spoolers[e.who]] == s.spoolers;
    }
  }

  /**
   However the accesses of all spools interleave, the counter is exactly what they hold, within the quota, and
   each reservation is in one place.
   */
  lemma {:induction false} EveryRunHolds(max: U64, run: seq<Event>)
    ensures Inv(Exec(max, run)) && Exec(max, run).max == max
    decreases |run|
  {
    hide Step, Inv;
    if run == [] {
      NewHolds(max);
    } else {
      EveryRunHolds(max, run[..|run| - 1]);
      StepKeeps(Exec(max, run[..|run| - 1]), run[|run| - 1]);
      StepKeepsMax(Exec(max, run[..|run| - 1]), run[|run| - 1]);
    }
  }

  lemma {:induction false} NewHolds(max: U64)
    ensures Inv(New(max))
  {
    SumZero(Held(map[]));
  }

  lemma {:induction false} StepKeepsMax(s: State, e: Event)
    ensures Step(s, e).max == s.max
  {
  }

  /**
   In every run a spool gives its reservation back at most once, and it has done so exactly when neither the
   spool nor its task has it any more; once the spool is dropped and its task has ended, that is the case.
   */
  lemma {:induction false} ReleasedExactlyOnce(max: U64, run: seq<Event>, who: nat)
    requires who in Exec(max, run).spoolers && Exec(max, run).spoolers[who].Spool?
    ensures var spool := Exec(max, run).spoolers[who];
            && spool.releases <= 1
            && (spool.releases == 1 <==> spool.field == 0 && spool.task.None?)
            && (!spool.owned && spool.task.None? ==> spool.releases == 1)
  {
    hide Exec, Sum, Held;
    EveryRunHolds(max, run);
  }

  /** A step that releases gives back exactly the reservation; the subtraction never wraps. */
  lemma {:induction false} ReleaseIsExact(s: State, e: Event)
    requires Inv(s) && e.who in s.spoolers && s.spoolers[e.who].Spool?
    ensures e.who in Step(s, e).spoolers && Step(s, e).spoolers[e.who].Spool?
    ensures Step(s, e).spoolers[e.who].releases != s.spoolers[e.who].releases ==>
              Step(s, e).reserved == s.reserved - s.spoolers[e.who].granted
    ensures Step(s, e).spoolers[e.who].releases == s.spoolers[e.who].releases ==> Step(s, e).reserved == s.reserved
  {
    hide Sum, Held;
    HeldCovers(s.spoolers, e.who);
  }

  /** `e` is an attempt of `who` to get its bytes: the first look at the counter or an exchange. */
  predicate Tries(s: State, who: nat, bytes: Positive, e: Event) {
    || (e == Load(who, bytes) && who !in s.spoolers)
    || (e.Exchange? && e.who == who && who in s.spoolers && s.spoolers[who].Wanting? && s.spoolers[who].bytes == bytes)
  }

  /** Whatever value an attempt started from, it is refused exactly when the bytes do not fit at its moment. */
  lemma {:induction false} RefusedExactlyWhenFull(s: State, who: nat, bytes: Positive, e: Event)
    requires Inv(s) && Tries(s, who, bytes, e)
    ensures who in Step(s, e).spoolers
    ensures Step(s, e).spoolers[who].Refused? <==> s.reserved + bytes > s.max
  {
    hide Sum, Held;
  }

  lemma {:induction false} SumBelow(a: map<nat, nat>, b: map<nat, nat>)
    requires a.Keys <= b.Keys && forall k :: k in a ==> a[k] <= b[k]
    ensures Sum(a) <= Sum(b)
    decreases |b|
  {
    if b == map[] {
      assert a == map[];
    } else {
      var k :| k in b;
      SumRemove(b, k);
      SumBelow(a - {k}, b - {k});
      if k in a { SumRemove(a, k); } else { assert a - {k} == a; }
    }
  }

  /** Files that stay within their reservations stay within the quota together. */
  lemma {:induction false} DiskWithinQuota(max: U64, run: seq<Event>, files: map<nat, nat>)
    requires var held := Held(Exec(max, run).spoolers);
             files.Keys <= held.Keys && forall who :: who in files ==> files[who] <= held[who]
    ensures Sum(files) <= max
  {
    hide Exec, Held, Sum;
    EveryRunHolds(max, run);
    SumBelow(files, Held(Exec(max, run).spoolers));
  }

  /** The counter as the object a spool is given. */
  class Quota {
    const max: U64
    var reserved: nat

    constructor (max: U64)
      ensures this.max == max && reserved == 0
    {
      this.max := max;
      reserved := 0;
    }

    /** The loop when no other spool comes in between: one attempt decides. */
    method ReserveBytes(bytes: Positive) returns (refusal: Option<Refusal>)
      modifies this
      ensures refusal.None? <==> old(reserved) + bytes <= max
      ensures refusal.Some? ==> Attempt(max, bytes, old(reserved)) == Refused(refusal.value)
      ensures reserved == if refusal.None? then old(reserved) + bytes else old(reserved)
    {
      var next := reserved + bytes;
      if next > U64_MAX { return Some(Overflow); }
      if next > max { return Some(CapacityExceeded); }
      reserved := next;
      refusal := None;
    }

    method ReleaseBytes(bytes: nat)
      modifies this
      ensures reserved == Subtract(old(reserved), bytes)
    {
      reserved := Subtract(reserved, bytes);
    }
  }
}
