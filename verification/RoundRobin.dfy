/** Round robin over a list that grows at its front while it is being gone through. */
module RoundRobin {
  import opened Words

  /** The processes in list order, the place of the running one, and the stack pointer kept for each. */
  datatype Queue<T(==)> = Queue(list: seq<T>, current: nat, stacks: map<T, Word>)

  datatype Event<T> = Arrival(process: T, stack: Word) | Tick(stack: Word)

  ghost predicate Distinct<T>(list: seq<T>) {
    forall i: nat, j: nat :: i < j < |list| ==> list[i] != list[j]
  }

  ghost predicate Sound<T>(q: Queue<T>) {
    && q.current < |q.list|
    && Distinct(q.list)
    && q.stacks.Keys == (set p | p in q.list)
  }

  function Running<T>(q: Queue<T>): T
    requires q.current < |q.list|
  {
    q.list[q.current]
  }

  function Added<T>(q: Queue<T>, p: T, stack: Word): Queue<T> {
    Queue([p] + q.list, q.current + 1, q.stacks[p := stack])
  }

  /** The running process is put aside with its stack pointer and the next in the list, or the first, runs. */
  function Switched<T>(q: Queue<T>, stack: Word): Queue<T>
    requires q.current < |q.list|
  {
    Queue(q.list, if q.current + 1 < |q.list| then q.current + 1 else 0, q.stacks[q.list[q.current] := stack])
  }

  /** An arriving process is not in the list yet. */
  predicate Possible<T(==)>(q: Queue<T>, e: Event<T>) {
    e.Tick? || e.process !in q.list
  }

  function Next<T>(q: Queue<T>, e: Event<T>): Queue<T>
    requires q.current < |q.list|
  {
    match e
    case Arrival(p, stack) => Added(q, p, stack)
    case Tick(stack) => Switched(q, stack)
  }

  lemma NextSound<T>(q: Queue<T>, e: Event<T>)
    requires Sound(q) && Possible(q, e)
    ensures Sound(Next(q, e))
  {}

  // ----- runs

  ghost predicate IsRun<T>(q: Queue<T>, es: seq<Event<T>>)
    requires Sound(q)
    decreases |es|
  {
    es == [] || (Possible(q, es[0]) && (NextSound(q, es[0]); IsRun(Next(q, es[0]), es[1..])))
  }

  ghost function After<T>(q: Queue<T>, es: seq<Event<T>>): (r: Queue<T>)
    requires Sound(q) && IsRun(q, es)
    ensures Sound(r)
    decreases |es|
  {
    if es == [] then q else NextSound(q, es[0]); After(Next(q, es[0]), es[1..])
  }

  function Ticks<T>(es: seq<Event<T>>): nat {
    if es == [] then 0 else (if es[0].Tick? then 1 else 0) + Ticks(es[1..])
  }

  /** Some tick of the run gives the processor to p. */
  ghost predicate Runs<T>(q: Queue<T>, es: seq<Event<T>>, p: T)
    requires Sound(q) && IsRun(q, es)
    decreases |es|
  {
    es != [] && (NextSound(q, es[0]);
      (es[0].Tick? && Running(Next(q, es[0])) == p) || Runs(Next(q, es[0]), es[1..], p))
  }

  /** How many processes come after the running one. */
  function Behind<T>(q: Queue<T>): nat
    requires q.current < |q.list|
  {
    |q.list| - 1 - q.current
  }

  /** The length of the list when the pass under way wraps around, or at the end of the run. */
  ghost function LengthAtWrap<T>(q: Queue<T>, es: seq<Event<T>>): nat
    requires Sound(q) && IsRun(q, es)
    decreases |es|
  {
    if es == [] then |q.list|
    else if es[0].Tick? && Behind(q) == 0 then |q.list|
    else NextSound(q, es[0]); LengthAtWrap(Next(q, es[0]), es[1..])
  }

  /** A process further down the list runs after as many ticks as it is places away. */
  lemma {:induction false} RunsAhead<T>(q: Queue<T>, es: seq<Event<T>>, p: T, i: nat)
    requires Sound(q) && IsRun(q, es)
    requires q.current < i < |q.list| && q.list[i] == p
    requires Ticks(es) >= i - q.current
    ensures Runs(q, es, p)
    decreases |es|
  {
    var e := es[0];
    NextSound(q, e);
    if e.Arrival? {
      RunsAhead(Next(q, e), es[1..], p, i + 1);
    } else if q.current + 1 < i {
      RunsAhead(Next(q, e), es[1..], p, i);
    }
  }

  /** No process waits longer than the rest of the pass and one more pass over the list as it is at the wrap:
      arrivals starve nobody. */
  lemma {:induction false} NobodyStarves<T>(q: Queue<T>, es: seq<Event<T>>, p: T)
    requires Sound(q) && IsRun(q, es) && p in q.list
    requires Ticks(es) >= Behind(q) + LengthAtWrap(q, es)
    ensures Runs(q, es, p)
    decreases |es|
  {
    var e := es[0];
    var n := Next(q, e);
    NextSound(q, e);
    if e.Tick? && Behind(q) == 0 {
      var i: nat :| i < |q.list| && q.list[i] == p;
      if i > 0 { RunsAhead(n, es[1..], p, i); }
    } else {
      assert p in n.list;
      NobodyStarves(n, es[1..], p);
    }
  }

  // ----- stack pointers

  /** The stack pointer p was last put aside with, or else arrived with, or else has in q. */
  ghost function LastSaved<T>(q: Queue<T>, es: seq<Event<T>>, p: T): Word
    requires Sound(q) && IsRun(q, es) && p in After(q, es).list
    decreases |es|
  {
    if es == [] then q.stacks[p]
    else
      Shorter(q, es);
      var front, e := es[..|es| - 1], es[|es| - 1];
      if e.Tick? && Running(After(q, front)) == p then e.stack
      else if e.Arrival? && e.process == p then e.stack
      else LastSaved(q, front, p)
  }

  lemma {:induction false} Shorter<T>(q: Queue<T>, es: seq<Event<T>>)
    requires Sound(q) && IsRun(q, es) && es != []
    ensures IsRun(q, es[..|es| - 1]) && Possible(After(q, es[..|es| - 1]), es[|es| - 1])
    ensures After(q, es) == Next(After(q, es[..|es| - 1]), es[|es| - 1])
    decreases |es|
  {
    NextSound(q, es[0]);
    if |es| > 1 {
      Shorter(Next(q, es[0]), es[1..]);
      assert es[1..][..|es| - 2] == es[..|es| - 1][1..];
    }
  }

  /** Whatever happens in between, a process is resumed with the stack pointer last saved for it. */
  lemma {:induction false} ResumesWhereItStopped<T>(q: Queue<T>, es: seq<Event<T>>, p: T)
    requires Sound(q) && IsRun(q, es) && p in After(q, es).list
    ensures p in After(q, es).stacks && After(q, es).stacks[p] == LastSaved(q, es, p)
    decreases |es|
  {
    if es != [] {
      Shorter(q, es);
      var front, e := es[..|es| - 1], es[|es| - 1];
      if p in After(q, front).list { ResumesWhereItStopped(q, front, p); }
    }
  }
}
