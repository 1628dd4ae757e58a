/** The bounded buffer between the threads of a client: a ring of slots with one
    gap, and what all interleavings of its users keep. */
module Rings {
  import opened ClientLists

  /** A client to be asked for its files, or one of its files to be fetched. */
  datatype Element = Element(client: ClientTuple, pathname: string, version: string)

  // ----- the ring

  datatype Ring = Ring(slots: seq<Element>, read: nat, write: nat) {
    predicate Valid() {
      if slots == [] then read == 0 && write == 0 else read < |slots| && write < |slots|
    }

    /** The elements from the read place on, around the end, up to the write
        place. */
    function Contents(): seq<Element>
      requires Valid()
    {
      if read <= write then slots[read..write] else slots[read..] + slots[..write]
    }

    /** One slot always stays free. */
    function Capacity(): nat {
      if slots == [] then 0 else |slots| - 1
    }

    predicate Empty() {
      read == write
    }

    predicate Full() {
      read == Next(write, |slots|)
    }

    function Pushed(e: Element): Ring
      requires write < |slots|
    {
      Ring(slots[write := e], read, Next(write, |slots|))
    }

    function Popped(): Ring {
      Ring(slots, Next(read, |slots|), write)
    }
  }

  function Next(i: nat, size: nat): nat {
    if i + 1 >= size then 0 else i + 1
  }

  lemma EmptyIff(r: Ring)
    requires r.Valid()
    ensures r.Empty() <==> r.Contents() == []
  {
    assert |r.Contents()| == if r.read <= r.write then r.write - r.read else |r.slots| - r.read + r.write;
  }

  lemma FullIff(r: Ring)
    requires r.Valid()
    ensures r.Full() <==> |r.Contents()| == r.Capacity()
  {
  }

  /** A push appends exactly when the ring is not full; a full ring would lose
      all it holds. */
  lemma PushAppendsIff(r: Ring, e: Element)
    requires r.Valid() && r.slots != []
    ensures r.Pushed(e).Valid() && (r.Pushed(e).Contents() == r.Contents() + [e] <==> !r.Full())
    ensures r.Full() ==> r.Pushed(e).Contents() == []
  {
    var s := r.Pushed(e);
    if !r.Full() {
      assert s.Contents() == r.Contents() + [e];
    }
  }

  /** A pop takes the first element exactly when there is one. */
  lemma PopTakesFirstIff(r: Ring)
    requires r.Valid() && r.slots != []
    ensures r.Popped().Valid() && (r.Contents() == [r.slots[r.read]] + r.Popped().Contents() <==> !r.Empty())
  {
    if !r.Empty() {
      assert r.Contents() == [r.slots[r.read]] + r.Popped().Contents();
    } else {
      EmptyIff(r);
    }
  }

  // ----- steps of threads

  /** What a thread does while it holds the mutex: one push once the buffer is
      not full, one pop once it is not empty, or another round of waiting. */
  datatype Step = Push(thread: nat, element: Element) | Pop(thread: nat) | Wait(thread: nat)

  predicate Enabled(r: Ring, s: Step) {
    match s
    case Push(_, _) => !r.Full()
    case Pop(_) => !r.Empty()
    case Wait(_) => true
  }

  function After(r: Ring, s: Step): Ring
    requires r.Valid() && Enabled(r, s)
  {
    match s
    case Push(_, e) => r.Pushed(e)
    case Pop(_) => r.Popped()
    case Wait(_) => r
  }

  lemma StaysValid(r: Ring, s: Step)
    requires r.Valid() && Enabled(r, s)
    ensures After(r, s).Valid() && |After(r, s).slots| == |r.slots|
  {
  }

  /** An interleaving: every step is one that its thread may take then. */
  predicate Run(r: Ring, steps: seq<Step>)
    requires r.Valid()
    decreases steps
  {
    steps != [] ==> Enabled(r, steps[0]) && (StaysValid(r, steps[0]); Run(After(r, steps[0]), steps[1..]))
  }

  function End(r: Ring, steps: seq<Step>): (r': Ring)
    requires r.Valid() && Run(r, steps)
    ensures r'.Valid() && |r'.slots| == |r.slots|
    decreases steps
  {
    if steps == [] then r else StaysValid(r, steps[0]); End(After(r, steps[0]), steps[1..])
  }

  /** All elements pushed, in order. */
  function PushedIn(steps: seq<Step>): seq<Element> {
    if steps == [] then []
    else (if steps[0].Push? then [steps[0].element] else []) + PushedIn(steps[1..])
  }

  /** All elements that pops returned, in order. */
  function PoppedIn(r: Ring, steps: seq<Step>): seq<Element>
    requires r.Valid() && Run(r, steps)
    decreases steps
  {
    if steps == [] then []
    else
      StaysValid(r, steps[0]);
      (if steps[0].Pop? then [r.slots[r.read]] else []) + PoppedIn(After(r, steps[0]), steps[1..])
  }

  /** Whatever the threads do, what has been popped and what the buffer holds
      is what the buffer held first and what has been pushed since: nothing is
      lost, doubled or overtaken, and the buffer never holds too much. */
  lemma {:induction false} NothingIsLost(r: Ring, steps: seq<Step>)
    requires r.Valid() && Run(r, steps)
    ensures r.Contents() + PushedIn(steps) == PoppedIn(r, steps) + End(r, steps).Contents()
    ensures |End(r, steps).Contents()| <= r.Capacity()
    decreases steps
  {
    if steps == [] {
      assert r.Contents() + [] == [] + r.Contents();
    } else {
      var s := steps[0];
      var r' := After(r, s);
      StaysValid(r, s);
      NothingIsLost(r', steps[1..]);
      var pushed, popped, rest := PushedIn(steps[1..]), PoppedIn(r', steps[1..]), End(r, steps).Contents();
      match s
      case Push(_, e) =>
        PushAppendsIff(r, e);
        OnePushed(r.Contents(), e, pushed, popped, rest);
      case Pop(_) =>
        PopTakesFirstIff(r);
        OnePopped(r.slots[r.read], r'.Contents(), pushed, popped, rest);
      case Wait(_) =>
        assert [] + pushed == pushed && [] + popped == popped;
    }
  }

  lemma OnePushed(held: seq<Element>, e: Element, pushed: seq<Element>, popped: seq<Element>, rest: seq<Element>)
    requires held + [e] + pushed == popped + rest
    ensures held + ([e] + pushed) == [] + popped + rest
  {
    assert held + ([e] + pushed) == held + [e] + pushed && [] + popped == popped;
  }

  lemma OnePopped(x: Element, held: seq<Element>, pushed: seq<Element>, popped: seq<Element>, rest: seq<Element>)
    requires held + pushed == popped + rest
    ensures [x] + held + ([] + pushed) == [x] + popped + rest
  {
    assert [x] + held + pushed == [x] + (held + pushed) && [] + pushed == pushed;
    assert [x] + popped + rest == [x] + (popped + rest);
  }

  // ----- when a thread waits

  function Pushes(steps: seq<Step>): nat {
    if steps == [] then 0 else (if steps[0].Push? then 1 else 0) + Pushes(steps[1..])
  }

  function Pops(steps: seq<Step>): nat {
    if steps == [] then 0 else (if steps[0].Pop? then 1 else 0) + Pops(steps[1..])
  }

  lemma {:induction false} HowMany(r: Ring, steps: seq<Step>)
    requires r.Valid() && Run(r, steps)
    ensures |PushedIn(steps)| == Pushes(steps) && |PoppedIn(r, steps)| == Pops(steps)
    decreases steps
  {
    if steps != [] {
      StaysValid(r, steps[0]);
      HowMany(After(r, steps[0]), steps[1..]);
    }
  }

  /** After any run a thread may push exactly when less than the capacity has been
      put in beyond what has been taken out, and pop exactly when anything has. */
  lemma MayStepIff(r: Ring, steps: seq<Step>, thread: nat, e: Element)
    requires r.Valid() && Run(r, steps)
    ensures var held := |r.Contents()| + Pushes(steps) - Pops(steps);
      && (Enabled(End(r, steps), Push(thread, e)) <==> held < |r.slots| - 1)
      && (Enabled(End(r, steps), Pop(thread)) <==> held > 0)
  {
    var end := End(r, steps);
    NothingIsLost(r, steps);
    HowMany(r, steps);
    assert |r.Contents() + PushedIn(steps)| == |PoppedIn(r, steps) + end.Contents()|;
    FullIff(end);
    EmptyIff(end);
  }

  /** In a buffer of at least two slots a producer and a consumer never wait for
      each other. */
  lemma NeverBothWait(r: Ring, steps: seq<Step>, thread: nat, e: Element)
    requires r.Valid() && Run(r, steps) && |r.slots| >= 2
    ensures Enabled(End(r, steps), Push(thread, e)) || Enabled(End(r, steps), Pop(thread))
  {
    MayStepIff(r, steps, thread, e);
  }

  // ----- the slot of a popped element

  /** Some push of the run writes slot `k`. */
  predicate Writes(r: Ring, steps: seq<Step>, k: nat)
    requires r.Valid() && Run(r, steps)
    decreases steps
  {
    steps != [] &&
      (|| (steps[0].Push? && r.write == k)
       || (StaysValid(r, steps[0]); Writes(After(r, steps[0]), steps[1..], k)))
  }

  /** How many pushes the write place is away from slot `k`. */
  function Distance(r: Ring, k: nat): nat
    requires r.Valid() && k < |r.slots|
  {
    if r.write <= k then k - r.write else |r.slots| - r.write + k
  }

  lemma {:induction false} WritesIff(r: Ring, steps: seq<Step>, k: nat)
    requires r.Valid() && Run(r, steps) && k < |r.slots|
    ensures Writes(r, steps, k) <==> Pushes(steps) > Distance(r, k)
    decreases steps
  {
    if steps != [] {
      StaysValid(r, steps[0]);
      WritesIff(After(r, steps[0]), steps[1..], k);
    }
  }

  /** How many elements the buffer takes before it is full. */
  function Room(r: Ring): nat
    requires r.Valid()
  {
    r.Capacity() - |r.Contents()|
  }

  /** A popped element stays in its slot for as many pushes as the buffer had
      room for after the pop, and not for one more, whatever is popped in
      between. */
  lemma PoppedSlotKeptIff(r: Ring, steps: seq<Step>)
    requires r.Valid() && !r.Empty() && r.Popped().Valid() && Run(r.Popped(), steps)
    ensures !Writes(r.Popped(), steps, r.read) <==> Pushes(steps) <= Room(r.Popped())
  {
    var s := r.Popped();
    assert Distance(s, r.read) == Room(s);
    WritesIff(s, steps, r.read);
  }

  lemma {:induction false} PushesFillRoom(r: Ring, steps: seq<Step>)
    requires r.Valid() && Run(r, steps) && Pops(steps) == 0
    ensures Pushes(steps) <= Room(r)
    decreases steps
  {
    if steps != [] {
      var s := After(r, steps[0]);
      StaysValid(r, steps[0]);
      PushesFillRoom(s, steps[1..]);
    }
  }

  lemma {:induction false} UnwrittenSlot(r: Ring, steps: seq<Step>, k: nat)
    requires r.Valid() && Run(r, steps) && k < |r.slots| && !Writes(r, steps, k)
    ensures End(r, steps).slots[k] == r.slots[k]
    decreases steps
  {
    if steps != [] {
      StaysValid(r, steps[0]);
      UnwrittenSlot(After(r, steps[0]), steps[1..], k);
    }
  }

  /** The slot that a pop returned holds the element until the next pop: with
      one worker, the pointer may be used outside the lock. */
  lemma KeptUntilNextPop(r: Ring, steps: seq<Step>)
    requires r.Valid() && !r.Empty() && r.Popped().Valid() && Run(r.Popped(), steps) && Pops(steps) == 0
    ensures End(r.Popped(), steps).slots[r.read] == r.slots[r.read]
  {
    PushesFillRoom(r.Popped(), steps);
    PoppedSlotKeptIff(r, steps);
    UnwrittenSlot(r.Popped(), steps, r.read);
  }

  /** With a second worker it may not: one more pop makes room for the push that
      writes the slot again. */
  lemma NotKeptBeyondNextPop(a: Element, b: Element, c: Element)
    requires c != a
    ensures var r := Ring([a, b], 0, 1);
      var steps := [Push(0, b), Pop(2), Push(0, c)];
      && r.Valid() && !r.Empty() && r.Popped().Valid() && Run(r.Popped(), steps)
      && End(r.Popped(), steps).slots[r.read] != r.slots[r.read]
  {
    var r := Ring([a, b], 0, 1);
    var s0 := r.Popped();
    assert s0 == Ring([a, b], 1, 1);
    var s1 := s0.Pushed(b);
    assert s1 == Ring([a, b], 1, 0);
    var s2 := s1.Popped();
    assert s2 == Ring([a, b], 0, 0);
    var s3 := s2.Pushed(c);
    assert s3 == Ring([c, b], 0, 1);
    assert [Pop(2), Push(0, c)][1..] == [Push(0, c)] && [Push(0, c)][1..] == [];
    assert [Push(0, b), Pop(2), Push(0, c)][1..] == [Pop(2), Push(0, c)];
    assert Run(s2, [Push(0, c)]) && End(s2, [Push(0, c)]) == s3;
    assert Run(s1, [Pop(2), Push(0, c)]) && End(s1, [Pop(2), Push(0, c)]) == s3;
  }

  // ----- the buffer in memory

  class Buffer {
    const circBuffer: array<Element>
    const size: nat
    var read: nat
    var write: nat

    function State(): Ring
      reads this, circBuffer
    {
      Ring(circBuffer[..], read, write)
    }

    ghost predicate Valid()
      reads this, circBuffer
    {
      size == circBuffer.Length && State().Valid()
    }

    constructor (bufferSize: nat)
      ensures Valid() && size == bufferSize && State().Contents() == []
    {
      circBuffer := new Element[bufferSize](_ => Element(ClientTuple(0, 0), "", ""));
      size, read, write := bufferSize, 0, 0;
    }

    method IsEmpty() returns (empty: bool)
      requires Valid()
      ensures empty <==> State().Contents() == []
    {
      EmptyIff(State());
      empty := read == write;
    }

    method IsFull() returns (full: bool)
      requires Valid()
      ensures full <==> |State().Contents()| == State().Capacity()
    {
      FullIff(State());
      var nextWrite := write + 1;
      if nextWrite >= size { nextWrite := 0; }
      full := read == nextWrite;
    }

    method Push(elem: Element)
      requires Valid() && |State().Contents()| < State().Capacity()
      modifies this`write, circBuffer
      ensures Valid() && State().Contents() == old(State().Contents()) + [elem]
      ensures State() == old(State()).Pushed(elem)
    {
      FullIff(State());
      PushAppendsIff(State(), elem);
      circBuffer[write] := elem;
      write := write + 1;
      if write >= size { write := 0; }
      assert circBuffer[..] == old(circBuffer[..])[old(write) := elem];
    }

    /** Returns the place of the first element, which stays in its slot. */
    method Pop() returns (elem: nat)
      requires Valid() && State().Contents() != []
      modifies this`read
      ensures Valid() && elem < size && State().Contents() == old(State().Contents())[1..]
      ensures circBuffer[elem] == old(State().Contents())[0] && elem == old(read)
      ensures State() == old(State()).Popped()
    {
      EmptyIff(State());
      PopTakesFirstIff(State());
      elem := read;
      read := read + 1;
      if read >= size { read := 0; }
      assert old(State().Contents())[1..] == State().Contents();
    }
  }
}
