/**
 * The `useDebounce` hook (src/hooks/useDebounce.ts) as a discrete-event machine. The hook's
 * output is its `debouncedValue` state; its effect re-runs when `value` or `delay` changes,
 * first clearing the timer the previous run scheduled and then scheduling a new one, and a
 * timer that fires copies the value that scheduled it into the output. Time is an integer
 * number of milliseconds carried by the events; the browser's timer table is a map from
 * timer id to the scheduled value and deadline.
 */
module Debounce {

  datatype Timer<T> = Timer(value: T, deadline: int)

  datatype Event<T> =
    | Change(value: T, delay: nat, at: int)  // a render whose `value` or `delay` may differ
    | Fire(id: nat, at: int)                 // the browser runs timer `id` at time `at`
    | Teardown                               // the component unmounts

  datatype State<T> = State(
    output: T,                    // debouncedValue
    value: T,                     // the effect's dependencies as it last ran
    delay: nat,
    timers: map<nat, Timer<T>>,   // timers scheduled and neither fired nor cleared
    current: nat,                 // the timer the latest effect run scheduled (its cleanup clears it)
    nextId: nat,
    mounted: bool)

  /** Mounting: the output starts as the input, and the effect's first run schedules timer 0. */
  function Mount<T>(value: T, delay: nat, at: int): State<T>
  {
    State(value, value, delay, map[0 := Timer(value, at + delay)], 0, 1, true)
  }

  /** At most the latest run's timer is pending, and none once unmounted. */
  ghost predicate Inv<T>(s: State<T>)
  {
    && s.current < s.nextId
    && s.timers.Keys <= {s.current}
    && (!s.mounted ==> s.timers == map[])
  }

  /** So at most one timer is ever pending. */
  lemma AtMostOneTimer<T>(s: State<T>)
    requires Inv(s)
    ensures |s.timers| <= 1
  {
    assert s.timers.Keys == {} || s.timers.Keys == {s.current};
  }

  /** Whether event `e` makes a pending timer fire in state `s`. */
  predicate Fires<T>(s: State<T>, e: Event<T>)
  {
    e.Fire? && e.id in s.timers && s.timers[e.id].deadline <= e.at
  }

  /** One event. */
  function Step<T(==)>(s: State<T>, e: Event<T>): (r: State<T>)
    ensures Inv(s) ==> Inv(r)
    ensures Inv(s) && e.Change? && s.mounted && (e.value != s.value || e.delay != s.delay) ==>
      r.timers == map[r.current := Timer(e.value, e.at + e.delay)] && r.current !in s.timers
    ensures Fires(s, e) ==> r.output == s.timers[e.id].value && e.id !in r.timers
    ensures Inv(s) && Fires(s, e) ==> r.timers == map[]
    ensures !Fires(s, e) ==> r.output == s.output
    ensures Inv(s) && e.Teardown? ==> r.timers == map[] && !r.mounted
  {
    match e
    case Change(v, d, at) =>
      if !s.mounted || (v == s.value && d == s.delay) then s
      else
        var cleared := s.timers - {s.current};
        s.(value := v, delay := d, timers := cleared[s.nextId := Timer(v, at + d)],
           current := s.nextId, nextId := s.nextId + 1)
    case Fire(id, at) =>
      if id in s.timers && s.timers[id].deadline <= at
      then s.(output := s.timers[id].value, timers := s.timers - {id})
      else s
    case Teardown =>
      if s.mounted then s.(timers := s.timers - {s.current}, mounted := false) else s
  }

  /** A run of events, the last one applied last. */
  function Run<T(==)>(s: State<T>, evs: seq<Event<T>>): State<T>
  {
    if evs == [] then s else Step(Run(s, evs[..|evs| - 1]), evs[|evs| - 1])
  }

  /** The values supplied to the hook by the events. */
  function Supplied<T>(evs: seq<Event<T>>): set<T>
  {
    if evs == [] then {}
    else Supplied(evs[..|evs| - 1]) + (if evs[|evs| - 1].Change? then {evs[|evs| - 1].value} else {})
  }

  /** The invariant holds after any run from a mount. */
  lemma {:induction false} RunKeepsInv<T>(s: State<T>, evs: seq<Event<T>>)
    requires Inv(s)
    ensures Inv(Run(s, evs))
  {
    if evs != [] {
      RunKeepsInv(s, evs[..|evs| - 1]);
    }
  }

  /** The output and every pending timer's value were the initial value or supplied later. */
  lemma {:induction false} ValuesWereSupplied<T>(v0: T, d0: nat, t0: int, evs: seq<Event<T>>)
    ensures var s := Run(Mount(v0, d0, t0), evs);
      && s.output in {v0} + Supplied(evs)
      && forall id | id in s.timers :: s.timers[id].value in {v0} + Supplied(evs)
  {
    if evs != [] {
      var init := evs[..|evs| - 1];
      ValuesWereSupplied(v0, d0, t0, init);
      assert Supplied(init) <= Supplied(evs);
    }
  }

  /** The output is always the initial value or a value some change supplied. */
  lemma OutputWasSupplied<T>(v0: T, d0: nat, t0: int, evs: seq<Event<T>>)
    ensures Run(Mount(v0, d0, t0), evs).output == v0 || Run(Mount(v0, d0, t0), evs).output in Supplied(evs)
  {
    ValuesWereSupplied(v0, d0, t0, evs);
  }

  /** After teardown no event changes the output. */
  lemma {:induction false} NothingAfterTeardown<T>(s: State<T>, evs: seq<Event<T>>)
    requires Inv(s)
    ensures Run(Step(s, Teardown), evs).output == s.output
    ensures Run(Step(s, Teardown), evs).timers == map[]
    ensures !Run(Step(s, Teardown), evs).mounted
  {
    if evs != [] {
      NothingAfterTeardown(s, evs[..|evs| - 1]);
    }
  }

  /** When a change or a timer delivery happens; teardown carries no time. */
  function TimeOf<T>(e: Event<T>): int
    requires !e.Teardown?
  {
    match e
    case Change(_, _, at) => at
    case Fire(_, at) => at
  }

  /** The latest change in `evs`. */
  function LastChange<T>(evs: seq<Event<T>>): (e: Event<T>)
    requires |evs| > 0 && evs[0].Change?
    ensures e.Change?
  {
    if |evs| == 1 || evs[|evs| - 1].Change? then evs[|evs| - 1] else LastChange(evs[..|evs| - 1])
  }

  /**
   * A burst: changes with delay `d`, each a new value, and timer deliveries, every event less
   * than `d` after the latest change before it.
   */
  ghost predicate Burst<T(!new)>(evs: seq<Event<T>>, d: nat)
  {
    && |evs| > 0 && evs[0].Change? && evs[0].delay == d
    && (forall i :: 0 < i < |evs| ==> !evs[i].Teardown?)
    && (forall i :: 0 < i < |evs| ==> evs[i].Change? ==> evs[i].delay == d && evs[i].value != LastChange(evs[..i]).value)
    && (forall i :: 0 < i < |evs| ==> !evs[i].Teardown? && TimeOf(evs[i]) < LastChange(evs[..i]).at + d)
  }

  lemma BurstPrefix<T(!new)>(evs: seq<Event<T>>, d: nat, j: nat)
    requires Burst(evs, d) && 0 < j <= |evs|
    ensures Burst(evs[..j], d)
  {
    forall i | 0 < i < j
      ensures evs[..j][..i] == evs[..i]
    {
    }
  }

  /** The state a burst keeps: output as before, one timer pending, the last change's. */
  ghost predicate Holding<T>(r: State<T>, s: State<T>, last: Event<T>, d: nat)
    requires last.Change?
  {
    && r.output == s.output
    && r.mounted && r.value == last.value && r.delay == d
    && r.timers == map[r.current := Timer(last.value, last.at + d)]
  }

  /** One event of a burst keeps the holding state. */
  lemma BurstStep<T>(p: State<T>, s: State<T>, last: Event<T>, e: Event<T>, d: nat)
    requires last.Change? && Inv(p) && Holding(p, s, last, d)
    requires !e.Teardown? && TimeOf(e) < last.at + d
    requires e.Change? ==> e.delay == d && e.value != last.value
    ensures Holding(Step(p, e), s, if e.Change? then e else last, d)
  {
  }

  /** During a burst the output does not change, and one timer is pending: the last change's. */
  lemma {:induction false} BurstHoldsOutput<T(!new)>(s: State<T>, evs: seq<Event<T>>, d: nat)
    requires Inv(s) && s.mounted
    requires Burst(evs, d)
    requires evs[0].value != s.value || d != s.delay
    ensures Holding(Run(s, evs), s, LastChange(evs), d)
  {
    var n := |evs|;
    if n == 1 {
      assert evs[..0] == [];
      assert Run(s, evs) == Step(s, evs[0]);
    } else {
      var init := evs[..n - 1];
      BurstPrefix(evs, d, n - 1);
      BurstHoldsOutput(s, init, d);
      RunKeepsInv(s, init);
      var e := evs[n - 1];
      assert Run(s, evs) == Step(Run(s, init), e);
      assert !e.Teardown?;
      assert TimeOf(e) < LastChange(init).at + d;
      assert e.Change? ==> e.delay == d && e.value != LastChange(init).value;
      BurstStep(Run(s, init), s, LastChange(init), e, d);
    }
  }

  /**
   * A burst ends in exactly one update, to the last value, `d` after the last change:
   * no delivery earlier than that changes anything, and the pending timer's delivery then
   * sets the output.
   */
  lemma BurstSettles<T(!new)>(s: State<T>, evs: seq<Event<T>>, d: nat)
    requires Inv(s) && s.mounted
    requires Burst(evs, d)
    requires evs[0].value != s.value || d != s.delay
    ensures forall id: nat, at :: at < LastChange(evs).at + d ==> Step(Run(s, evs), Fire(id, at)) == Run(s, evs)
    ensures Step(Run(s, evs), Fire(Run(s, evs).current, LastChange(evs).at + d)).output == LastChange(evs).value
    ensures Step(Run(s, evs), Fire(Run(s, evs).current, LastChange(evs).at + d)).timers == map[]
  {
    BurstHoldsOutput(s, evs, d);
  }

  /** Typing "g", "ge", "ger" 100 ms apart with a 300 ms delay updates the output once, to "ger", at 600 ms. */
  lemma TypingScenario()
    ensures var s := Run(Mount("", 300, 0), [Change("g", 300, 100), Change("ge", 300, 200), Change("ger", 300, 300)]);
      && s.output == ""
      && Step(s, Fire(s.current, 599)) == s
      && Step(s, Fire(s.current, 600)).output == "ger"
  {
    var evs := [Change("g", 300, 100), Change("ge", 300, 200), Change("ger", 300, 300)];
    assert evs[..1] == [Change("g", 300, 100)];
    assert evs[..2] == [Change("g", 300, 100), Change("ge", 300, 200)];
    assert evs[..2][..1] == evs[..1];
    assert Burst(evs, 300);
    BurstHoldsOutput(Mount("", 300, 0), evs, 300);
    BurstSettles(Mount("", 300, 0), evs, 300);
  }

  class Debouncer<T(==)> {
    var debouncedValue: T
    var value: T
    var delay: nat
    var timers: map<nat, Timer<T>>
    var timer: nat
    var nextId: nat
    var mounted: bool

    function Current(): State<T>
      reads this
    {
      State(debouncedValue, value, delay, timers, timer, nextId, mounted)
    }

    ghost predicate Valid()
      reads this
    {
      Inv(Current())
    }

    /** `useState(value)`, then the effect's first run. */
    constructor (value: T, delay: nat, at: int)
      ensures Valid() && Current() == Mount(value, delay, at)
      ensures debouncedValue == value
    {
      debouncedValue := value;
      this.value := value;
      this.delay := delay;
      timers := map[0 := Timer(value, at + delay)];
      timer := 0;
      nextId := 1;
      mounted := true;
    }

    /** A render with `v` and `d`: when either changed, clear the old timer and schedule a new one. */
    method Change(v: T, d: nat, at: int)
      requires Valid()
      modifies this
      ensures Valid() && Current() == Step(old(Current()), Event.Change(v, d, at))
      ensures debouncedValue == old(debouncedValue)
      ensures old(mounted) && (v != old(value) || d != old(delay)) ==> timers == map[timer := Timer(v, at + d)]
    {
      if !mounted || (v == value && d == delay) {
        return;
      }
      timers := timers - {timer};
      timer := nextId;
      timers := timers[timer := Timer(v, at + d)];
      nextId := nextId + 1;
      value, delay := v, d;
    }

    /** The browser runs timer `id` at time `at`. */
    method Fire(id: nat, at: int)
      requires Valid()
      modifies this
      ensures Valid() && Current() == Step(old(Current()), Event.Fire(id, at))
      ensures Fires(old(Current()), Event.Fire(id, at)) ==> debouncedValue == old(timers[id].value) && timers == map[]
    {
      if id in timers && timers[id].deadline <= at {
        debouncedValue := timers[id].value;
        timers := timers - {id};
      }
    }

    /** The effect's cleanup on unmount. */
    method Teardown()
      requires Valid()
      modifies this
      ensures Valid() && Current() == Step(old(Current()), Event.Teardown)
      ensures timers == map[] && !mounted && debouncedValue == old(debouncedValue)
    {
      if mounted {
        timers := timers - {timer};
        mounted := false;
      }
    }
  }
}
