/** The round-robin message scheduler: one FIFO queue per address, served in rotation. */
module RoundRobin {
  import opened Options
  import opened StringOrder

  const INVALID: string := "invalid"

  datatype AddressedMessage = AddressedMessage(address: string, message: nat)

  datatype State = State(keys: set<string>, queues: map<string, seq<AddressedMessage>>, pointer: string)

  datatype Event = Push(aMessage: AddressedMessage) | Pop

  const EMPTY: State := State({}, map[], INVALID)

  function Queue(st: State, address: string): seq<AddressedMessage> {
    if address in st.queues then st.queues[address] else []
  }

  /** The key set is the key set of the map, no stored queue is empty or holds another address's
    * message, and the pointer is invalid or a live key. */
  ghost predicate Inv(st: State) {
    && st.keys == st.queues.Keys
    && INVALID !in st.keys
    && (forall a :: a in st.queues ==> st.queues[a] != [])
    && (forall a, i :: a in st.queues && 0 <= i < |st.queues[a]| ==> st.queues[a][i].address == a)
    && (st.pointer == INVALID || st.pointer in st.keys)
  }

  /** The address the next `Pop` serves. */
  function Served(st: State): string
    requires st.keys != {}
  {
    if st.pointer == INVALID then Begin(st.keys) else st.pointer
  }

  function PushMessage(st: State, m: AddressedMessage): State {
    State(st.keys + {m.address}, st.queues[m.address := Queue(st, m.address) + [m]], st.pointer)
  }

  function PopMessage(st: State): (State, Option<AddressedMessage>)
    requires Inv(st)
  {
    if st.keys == {} then (st, None)
    else
      var p := Served(st);
      var rest := st.queues[p][1..];
      var pointer := if |st.queues| == 1 then INVALID else NextKey(st.keys, p);
      (if rest == [] then State(st.keys - {p}, st.queues - {p}, pointer)
       else State(st.keys, st.queues[p := rest], pointer),
       Some(st.queues[p][0]))
  }

  // ---------- Safety ----------

  lemma PushKeepsInv(st: State, m: AddressedMessage)
    requires Inv(st) && m.address != INVALID
    ensures Inv(PushMessage(st, m))
  {}

  lemma {:induction false} NextOfSingle(keys: set<string>, p: string)
    requires p in keys && NextKey(keys, p) == p
    ensures keys == {p}
  {
    if a :| a in keys && a != p {
      NextIsNearer(keys, keys, p, a);
    }
  }

  lemma PopKeepsInv(st: State)
    requires Inv(st)
    ensures Inv(PopMessage(st).0)
  {
    if st.keys != {} {
      var p := Served(st);
      if NextKey(st.keys, p) == p {
        NextOfSingle(st.keys, p);
        OneKey(st.queues, p);
      }
    }
  }

  lemma OneKey<T>(m: map<string, T>, p: string)
    requires m.Keys == {p}
    ensures |m| == 1
  {
    assert |m.Keys| == 1;
  }

  lemma SingletonKeys<T>(m: map<string, T>, p: string)
    requires p in m && |m| == 1
    ensures m.Keys == {p}
  {
    assert |m.Keys - {p}| == 0;
  }

  function Step(st: State, e: Event): (State, Option<AddressedMessage>)
    requires Inv(st)
  {
    match e
    case Push(m) => (PushMessage(st, m), None)
    case Pop => PopMessage(st)
  }

  /** `"invalid"` is not an address. */
  predicate ValidEvents(events: seq<Event>) {
    forall i :: 0 <= i < |events| && events[i].Push? ==> events[i].aMessage.address != INVALID
  }

  lemma StepKeepsInv(st: State, e: Event)
    requires Inv(st) && (e.Push? ==> e.aMessage.address != INVALID)
    ensures Inv(Step(st, e).0)
  {
    if e.Push? {
      PushKeepsInv(st, e.aMessage);
    } else {
      PopKeepsInv(st);
    }
  }

  /** The state after a run, and the messages its pops delivered. */
  function Run(st: State, events: seq<Event>): (r: (State, seq<AddressedMessage>))
    requires Inv(st) && ValidEvents(events)
    ensures Inv(r.0)
    decreases |events|
  {
    if events == [] then (st, [])
    else
      StepKeepsInv(st, events[0]);
      var (st1, popped) := Step(st, events[0]);
      var (st', rest) := Run(st1, events[1..]);
      (st', Delivered(popped) + rest)
  }

  // ---------- Conservation ----------

  function For(messages: seq<AddressedMessage>, a: string): seq<AddressedMessage> {
    if messages == [] then []
    else (if messages[0].address == a then [messages[0]] else []) + For(messages[1..], a)
  }

  function Pushed(events: seq<Event>): seq<AddressedMessage> {
    if events == [] then [] else PushedBy(events[0]) + Pushed(events[1..])
  }

  function PushedBy(e: Event): seq<AddressedMessage> {
    if e.Push? then [e.aMessage] else []
  }

  lemma {:induction false} ForAppend(x: seq<AddressedMessage>, y: seq<AddressedMessage>, a: string)
    ensures For(x + y, a) == For(x, a) + For(y, a)
  {
    if x == [] {
      assert x + y == y;
    } else {
      ForAppend(x[1..], y, a);
      assert (x + y)[0] == x[0] && (x + y)[1..] == x[1..] + y;
      var first := if x[0].address == a then [x[0]] else [];
      assert first + (For(x[1..], a) + For(y, a)) == (first + For(x[1..], a)) + For(y, a);
    }
  }

  lemma ForOne(m: AddressedMessage, a: string)
    ensures For([m], a) == if m.address == a then [m] else []
  {
    assert [m][1..] == [];
  }

  function Delivered(popped: Option<AddressedMessage>): seq<AddressedMessage> {
    if popped.Some? then [popped.value] else []
  }

  lemma StepConserves(st: State, e: Event, a: string)
    requires Inv(st)
    ensures Queue(st, a) + For(PushedBy(e), a) == For(Delivered(Step(st, e).1), a) + Queue(Step(st, e).0, a)
  {
    if e.Push? {
      ForOne(e.aMessage, a);
    } else if st.keys != {} {
      var p := Served(st);
      ForOne(st.queues[p][0], a);
      assert st.queues[p] == [st.queues[p][0]] + st.queues[p][1..];
    }
  }

  /** Two conserving stretches of a run make one. */
  lemma Chain<T>(before: seq<T>, in1: seq<T>, out1: seq<T>, mid: seq<T>, in2: seq<T>, out2: seq<T>, after: seq<T>)
    requires before + in1 == out1 + mid && mid + in2 == out2 + after
    ensures before + (in1 + in2) == (out1 + out2) + after
  {
    assert before + (in1 + in2) == (before + in1) + in2 == out1 + (mid + in2);
    assert out1 + (out2 + after) == (out1 + out2) + after;
  }

  /** Nothing is lost, duplicated, reordered or misdelivered: for each address, what was queued and
    * then pushed is what was popped followed by what is still queued. */
  lemma {:induction false} Conservation(st: State, events: seq<Event>, a: string)
    requires Inv(st) && ValidEvents(events)
    ensures Queue(st, a) + For(Pushed(events), a)
            == For(Run(st, events).1, a) + Queue(Run(st, events).0, a)
    decreases |events|
  {
    if events != [] {
      var e, rest := events[0], events[1..];
      StepKeepsInv(st, e);
      StepConserves(st, e, a);
      hide Inv, Queue, Step, For, Delivered, PushedBy;
      var (st1, popped) := Step(st, e);
      Conservation(st1, rest, a);
      ForAppend(Delivered(popped), Run(st1, rest).1, a);
      ForAppend(PushedBy(e), Pushed(rest), a);
      Chain(Queue(st, a), For(PushedBy(e), a), For(Delivered(popped), a), Queue(st1, a),
            For(Pushed(rest), a), For(Run(st1, rest).1, a), Queue(Run(st1, rest).0, a));
    }
  }

  ghost function Total(queues: map<string, seq<AddressedMessage>>): nat
    decreases queues.Keys
  {
    if queues == map[] then 0
    else
      var k :| k in queues;
      |queues[k]| + Total(queues - {k})
  }

  /** The total does not depend on the order the queues are visited in. */
  lemma {:induction false} TotalWithout(queues: map<string, seq<AddressedMessage>>, a: string)
    requires a in queues
    ensures Total(queues) == |queues[a]| + Total(queues - {a})
    decreases queues.Keys
  {
    var k :| k in queues && Total(queues) == |queues[k]| + Total(queues - {k});
    if k != a {
      TotalWithout(queues - {k}, a);
      TotalWithout(queues - {a}, k);
      assert queues - {k} - {a} == queues - {a} - {k};
    }
  }

  lemma TotalUpdate(queues: map<string, seq<AddressedMessage>>, a: string, q: seq<AddressedMessage>)
    ensures Total(queues[a := q]) == Total(queues - {a}) + |q|
  {
    TotalWithout(queues[a := q], a);
    assert queues[a := q] - {a} == queues - {a};
  }

  lemma StepTotal(st: State, e: Event)
    requires Inv(st)
    ensures Total(Step(st, e).0.queues) == Total(st.queues) + |PushedBy(e)| - |Delivered(Step(st, e).1)|
  {
    if e.Push? {
      var m := e.aMessage;
      TotalUpdate(st.queues, m.address, Queue(st, m.address) + [m]);
      if m.address in st.queues {
        TotalWithout(st.queues, m.address);
      } else {
        assert st.queues - {m.address} == st.queues;
      }
    } else if st.keys != {} {
      TotalWithout(st.queues, Served(st));
      TotalUpdate(st.queues, Served(st), st.queues[Served(st)][1..]);
    }
  }

  /** `Pop` returns nothing exactly when nothing is stored. */
  lemma PopFailsOnlyWhenEmpty(st: State)
    requires Inv(st)
    ensures PopMessage(st).1.None? <==> Total(st.queues) == 0
  {
    if st.keys != {} {
      TotalWithout(st.queues, Served(st));
    }
  }

  /** The number of stored messages is pushes minus deliveries. */
  lemma {:induction false} SizeIsPushesMinusPops(st: State, events: seq<Event>)
    requires Inv(st) && ValidEvents(events)
    ensures Total(Run(st, events).0.queues) == Total(st.queues) + |Pushed(events)| - |Run(st, events).1|
    decreases |events|
  {
    if events != [] {
      StepKeepsInv(st, events[0]);
      StepTotal(st, events[0]);
      hide Inv, Step, Total, Delivered, PushedBy;
      SizeIsPushesMinusPops(Step(st, events[0]).0, events[1..]);
    }
  }

  // ---------- Fairness ----------

  function CountPops(events: seq<Event>): nat {
    if events == [] then 0 else (if events[0].Pop? then 1 else 0) + CountPops(events[1..])
  }

  ghost predicate UsesOnly(st: State, events: seq<Event>, all: set<string>) {
    st.keys <= all && forall i :: 0 <= i < |events| && events[i].Push? ==> events[i].aMessage.address in all
  }

  /** Once the pointer is live, it reaches a pending address after as many pops as there are addresses
    * ahead of it, whatever is pushed meanwhile. */
  lemma {:induction false} ServedWhenReached(st: State, events: seq<Event>, all: set<string>, a: string)
    requires Inv(st) && ValidEvents(events) && UsesOnly(st, events, all)
    requires a in st.keys && (st.pointer != INVALID)
    requires CountPops(events) > |Ahead(all, st.pointer, a)|
    ensures DeliveredWithin(Run(st, events).1, st.queues[a][0], |Ahead(all, st.pointer, a)| + 1)
    decreases |events|
  {
    var e := events[0];
    StepKeepsInv(st, e);
    var (st1, popped) := Step(st, e);
    var rest := Run(st1, events[1..]).1;
    assert Run(st, events).1 == Delivered(popped) + rest;
    if e.Pop? && st.pointer == a {
      assert Run(st, events).1[0] == st.queues[a][0];
    } else {
      StepApproaches(st, e, all, a);
      ServedWhenReached(st1, events[1..], all, a);
      LaterDelivery(Delivered(popped), rest, st.queues[a][0], |Ahead(all, st1.pointer, a)| + 1);
    }
  }

  /** The first `n` deliveries include `m`. */
  ghost predicate DeliveredWithin(popped: seq<AddressedMessage>, m: AddressedMessage, n: nat) {
    exists i :: 0 <= i < n && i < |popped| && popped[i] == m
  }

  lemma LaterDelivery(first: seq<AddressedMessage>, rest: seq<AddressedMessage>, m: AddressedMessage, n: nat)
    requires DeliveredWithin(rest, m, n)
    ensures DeliveredWithin(first + rest, m, n + |first|)
  {
    var i :| 0 <= i < n && i < |rest| && rest[i] == m;
    assert (first + rest)[|first| + i] == m;
  }

  /** A step that does not serve `a` keeps it pending; a pop brings the pointer strictly nearer. */
  lemma StepApproaches(st: State, e: Event, all: set<string>, a: string)
    requires Inv(st) && a in st.keys && st.pointer != INVALID && st.keys <= all
    requires e.Pop? ==> st.pointer != a
    ensures var (st1, popped) := Step(st, e);
            && a in st1.keys && st1.queues[a][0] == st.queues[a][0] && st1.pointer != INVALID
            && |Ahead(all, st1.pointer, a)| + |Delivered(popped)| <= |Ahead(all, st.pointer, a)|
  {
    if e.Pop? {
      if |st.queues| == 1 {
        SingletonKeys(st.queues, st.pointer);
        assert false;
      }
      NextIsNearer(all, st.keys, st.pointer, a);
      SmallerSet(Ahead(all, NextKey(st.keys, st.pointer), a), Ahead(all, st.pointer, a));
    }
  }

  lemma {:induction false} SmallerSet<T>(a: set<T>, b: set<T>)
    requires a < b
    ensures |a| < |b|
  {
    assert b == a + (b - a);
    var x :| x in b - a;
    assert |b - a| > 0;
  }

  /** `a` itself is never ahead of it, so at most all other addresses are. */
  lemma AheadOfOthers(all: set<string>, p: string, a: string)
    requires a in all
    ensures |Ahead(all, p, a)| <= |all| - 1
  {
    LessIsStrictOrder();
    hide Less;
    SmallerSet(Ahead(all, p, a), all);
  }

  /** Fairness: if at most `|all|` addresses are ever used, a pending address has its oldest message
    * delivered within `|all|` pops, under any interleaving of pushes. */
  lemma {:induction false} Fairness(st: State, events: seq<Event>, all: set<string>, a: string)
    requires Inv(st) && ValidEvents(events) && UsesOnly(st, events, all) && a in st.keys
    requires CountPops(events) >= |all|
    ensures DeliveredWithin(Run(st, events).1, st.queues[a][0], |all|)
    decreases |events|
  {
    if st.pointer != INVALID {
      AheadOfOthers(all, st.pointer, a);
      ServedWhenReached(st, events, all, a);
    } else {
      SmallerOrEqual({a}, all);
      var e := events[0];
      if e.Push? {
        StepKeepsInv(st, e);
        var st1 := Step(st, e).0;
        Fairness(st1, events[1..], all, a);
        assert Run(st, events).1 == Run(st1, events[1..]).1;
      } else {
        var live := st.(pointer := Begin(st.keys));
        assert PopMessage(live) == PopMessage(st);
        assert Run(live, events) == Run(st, events);
        AheadOfOthers(all, live.pointer, a);
        ServedWhenReached(live, events, all, a);
      }
    }
  }

  lemma SmallerOrEqual<T>(a: set<T>, b: set<T>)
    requires a <= b
    ensures |a| <= |b|
  {
    if a != b {
      SmallerSet(a, b);
    }
  }

  // ---------- The scheduler object ----------

  /** `PopMessage` in the order in which the code does it. */
  lemma PopInSteps(st: State)
    requires Inv(st) && st.keys != {}
    ensures var p := Served(st);
            var queues := st.queues[p := st.queues[p][1..]];
            && queues.Keys == st.keys
            && (forall a :: a in queues && a != p ==> queues[a] != [])
            && PopMessage(st)
               == (State(if queues[p] == [] then st.keys - {p} else st.keys,
                         if queues[p] == [] then queues - {p} else queues,
                         if |queues| == 1 then INVALID else NextKey(st.keys, p)),
                   Some(st.queues[p][0]))
  {
    var p := Served(st);
    var queues := st.queues[p := st.queues[p][1..]];
    SameKeysSameSize(queues, st.queues);
    assert queues - {p} == st.queues - {p};
  }

  class RRMessageScheduler {
    var keyPointer: string
    var keySet: set<string>
    var rrQueue: map<string, seq<AddressedMessage>>

    function View(): State
      reads this
    {
      State(keySet, rrQueue, keyPointer)
    }

    ghost predicate Valid()
      reads this
    {
      Inv(View())
    }

    constructor ()
      ensures Valid() && View() == EMPTY
    {
      keyPointer := INVALID;
      keySet := {};
      rrQueue := map[];
    }

    method Push(aMessage: AddressedMessage)
      requires Valid() && aMessage.address != INVALID
      modifies this
      ensures Valid() && View() == PushMessage(old(View()), aMessage)
    {
      var address := aMessage.address;
      PushKeepsInv(View(), aMessage);
      keySet := keySet + {address};
      if address !in rrQueue {
        rrQueue := rrQueue[address := []];
      }
      rrQueue := rrQueue[address := rrQueue[address] + [aMessage]];
    }

    /** The do-while rotation of `Pop`. It takes exactly one step: every queue but the one just served
      * is non-empty. */
    method RotateKeyPointer(ghost served: string) returns (ghost rotations: nat)
      requires keySet == rrQueue.Keys && keyPointer == served && served in keySet
      requires forall a :: a in rrQueue && a != served ==> rrQueue[a] != []
      modifies this`keyPointer
      ensures rotations == 1
      ensures keyPointer == if |rrQueue| == 1 then INVALID else NextKey(keySet, served)
    {
      rotations := 0;
      var count := 0;
      var first := true;
      if |rrQueue| == 1 {
        SingletonKeys(rrQueue, served);
      }
      while first || (count < |rrQueue| && rrQueue[keyPointer] == [])
        invariant keyPointer in keySet
        invariant count == rotations == if first then 0 else 1
        invariant first ==> keyPointer == served
        invariant !first ==> keyPointer == NextKey(keySet, served)
        invariant !first && keyPointer == served ==> |rrQueue| == 1
        decreases first
      {
        keyPointer := NextKey(keySet, keyPointer);
        count := count + 1;
        rotations := rotations + 1;
        first := false;
        if keyPointer == served {
          NextOfSingle(keySet, served);
          OneKey(rrQueue, served);
        }
      }
      if count >= |rrQueue| {
        keyPointer := INVALID;
      }
    }

    method Pop() returns (aMessage: Option<AddressedMessage>)
      requires Valid()
      modifies this
      ensures Valid() && (View(), aMessage) == PopMessage(old(View()))
    {
      PopKeepsInv(View());
      if keySet == {} {
        return None;
      }
      PopInSteps(View());
      hide PopMessage, NextKey, Begin;
      if keyPointer == INVALID {
        keyPointer := Begin(keySet);
      }
      ghost var served := keyPointer;
      aMessage := Some(rrQueue[keyPointer][0]);
      rrQueue := rrQueue[keyPointer := rrQueue[keyPointer][1..]];
      var deletedKey := INVALID;
      if rrQueue[keyPointer] == [] {
        deletedKey := keyPointer;
      }
      hide Inv;
      var _ := RotateKeyPointer(served);
      if deletedKey != INVALID {
        keySet := keySet - {deletedKey};
        rrQueue := rrQueue - {deletedKey};
      }
    }

    method GetSize() returns (size: nat)
      requires Valid()
      ensures size == Total(rrQueue)
    {
      size := 0;
      var rest := rrQueue;
      while rest != map[]
        invariant size + Total(rest) == Total(rrQueue)
        decreases rest.Keys
      {
        var address :| address in rest;
        TotalWithout(rest, address);
        size := size + |rest[address]|;
        rest := rest - {address};
      }
    }
  }

  lemma SameKeysSameSize<T>(m: map<string, T>, m': map<string, T>)
    requires m.Keys == m'.Keys
    ensures |m| == |m'|
  {
    assert |m| == |m.Keys| && |m'| == |m'.Keys|;
  }
}
