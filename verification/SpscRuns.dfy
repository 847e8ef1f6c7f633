/** A run of the concurrent queue written out: the consumer finds the front block
    empty, the producer fills it and moves on to a new block, and the re-check of the
    front block finds the element that would otherwise be skipped. */
module SpscRuns {
  import opened Elements
  import opened Words
  import opened Blocks
  import opened Rings
  import opened Spsc
  import opened SpscTheorems
  import opened SpscProgress

  /** Some run with a queue for one element and blocks of two slots gets here. */
  ghost predicate CanBe(s: State) {
    exists h: History :: Reachable(Config(s, h), 1, 2)
  }

  lemma Goes(s: State, a: Action, s': State)
    requires CanBe(s) && Step(s, a) == s'
    ensures CanBe(s')
  {
    hide Reachable, Step;
    var h: History :| Reachable(Config(s, h), 1, 2);
    ReachableNext(Config(s, h), a, 1, 2);
    assert Next(Config(s, h), a) == Config(s', Observe(s, h, a));
  }

  function Dead(v: Elem): Slot { Slot(false, v) }
  function Live(v: Elem): Slot { Slot(true, v) }

  /** One block with `tail` as given. */
  function Single(tail: nat, slots: seq<Slot>): Memory {
    Memory([Block(0, 0, tail, 0, slots)], [0], 0, 0, 2, 2)
  }

  /** That block, full, and a second one. */
  function Double(next: seq<int>, tailBlock: int, v: Elem, second: Block): Memory {
    Memory([Block(0, 0, 1, 0, [Live(v), Dead(v)]), second], next, 0, tailBlock, 2, 2)
  }

  function Looking(at: ConsumerAt): Consumer { CBusy(TryDequeue, at) }
  function Adding(v: Elem, at: ProducerAt): Producer { PBusy(v, CanAlloc, at) }

  lemma TwoIsPow2()
    ensures IsPow2(2) && MaskInc(0, 2) == 1 && MaskInc(1, 2) == 0
  {
    assert 2 == Pow2(1);
  }

  lemma TwoSlots()
    ensures InitialSize(1, 2) == 2 && InitialCount(1, 2) == 1
  {
    assert CeilPow2From(1, 2) == CeilPow2From(2, 2) == 2;
  }

  lemma StartIs(v: Elem)
    ensures InitialState(1, 2, v) == State(Single(0, [Dead(v), Dead(v)]), PIdle(NotCalled), CIdle(NoAnswer))
  {
    TwoSlots();
    hide InitialSize, InitialCount;
    assert EmptyBlock(2, v).slots == [Dead(v), Dead(v)];
  }

  lemma BeginsHere(v: Elem)
    ensures CanBe(State(Single(0, [Dead(v), Dead(v)]), PIdle(NotCalled), CIdle(NoAnswer)))
  {
    TwoIsPow2();
    hide InitialState, Reachable, IsPow2;
    StartIs(v);
    StartReachable(1, 2, v);
    var c := InitialConfig(1, 2, v);
    assert Reachable(Config(c.s, c.h), 1, 2);
  }

  /** The consumer finds no element and stands before its load of `tailBlock`. */
  lemma FindsNothing(v: Elem)
    ensures CanBe(State(Single(0, [Dead(v), Dead(v)]), PIdle(NotCalled), Looking(ReadTailBlock(0))))
  {
    TwoIsPow2();
    BeginsHere(v);
    hide CanBe, MaskInc, IsPow2;
    var m, p := Single(0, [Dead(v), Dead(v)]), PIdle(NotCalled);
    Goes(State(m, p, CIdle(NoAnswer)), CallConsumer(TryDequeue), State(m, p, Looking(CLoad)));
    Goes(State(m, p, Looking(CLoad)), StepConsumer, State(m, p, Looking(ReadTail(0, 0))));
    Goes(State(m, p, Looking(ReadTail(0, 0))), StepConsumer, State(m, p, Looking(ReadTailBlock(0))));
  }

  /** The producer fills the front block. */
  lemma FillsBlock(v: Elem)
    ensures CanBe(State(Single(1, [Live(v), Dead(v)]), PIdle(Accepted), Looking(ReadTailBlock(0))))
  {
    TwoIsPow2();
    FindsNothing(v);
    hide CanBe, MaskInc, IsPow2;
    var tick, c := StepProducer(true, v), Looking(ReadTailBlock(0));
    var m, filled := Single(0, [Dead(v), Dead(v)]), Single(0, [Live(v), Dead(v)]);
    assert [Dead(v), Dead(v)][0 := Live(v)] == [Live(v), Dead(v)];
    Goes(State(m, PIdle(NotCalled), c), CallEnqueue(v, CanAlloc), State(m, Adding(v, Load), c));
    Goes(State(m, Adding(v, Load), c), tick, State(m, Adding(v, Construct(0, 0, 1)), c));
    Goes(State(m, Adding(v, Construct(0, 0, 1)), c), tick, State(filled, Adding(v, StoreTail(0, 1)), c));
    Goes(State(filled, Adding(v, StoreTail(0, 1)), c), tick,
         State(Single(1, [Live(v), Dead(v)]), PIdle(Accepted), c));
  }

  /** Finding it full, it makes a second block. */
  lemma MakesSecond(v: Elem)
    ensures CanBe(State(Double([0, NULL], 0, v, EmptyBlock(2, v)), Adding(v, Init(0, 1)), Looking(ReadTailBlock(0))))
  {
    TwoIsPow2();
    FillsBlock(v);
    hide CanBe, MaskInc, IsPow2;
    var tick, c := StepProducer(true, v), Looking(ReadTailBlock(0));
    var m := Single(1, [Live(v), Dead(v)]);
    Goes(State(m, PIdle(Accepted), c), CallEnqueue(v, CanAlloc), State(m, Adding(v, Load), c));
    Goes(State(m, Adding(v, Load), c), tick, State(m, Adding(v, ReadFront(0, 1, 0)), c));
    Goes(State(m, Adding(v, ReadFront(0, 1, 0)), c), tick, State(m, Adding(v, CheckNext(0)), c));
    Goes(State(m, Adding(v, CheckNext(0)), c), tick, State(m, Adding(v, Malloc(0)), c));
    Goes(State(m, Adding(v, Malloc(0)), c), tick,
         State(Double([0, NULL], 0, v, EmptyBlock(2, v)), Adding(v, Init(0, 1)), c));
  }

  /** It moves on to that block. */
  lemma MovesOn(v: Elem)
    ensures CanBe(State(Double([1, 0], 1, v, Block(0, 1, 1, 0, [Live(v), Dead(v)])),
                        PIdle(Accepted), Looking(ReadTailBlock(0))))
  {
    MakesSecond(v);
    hide CanBe, MaskInc, IsPow2;
    var tick, c := StepProducer(true, v), Looking(ReadTailBlock(0));
    var second := Block(0, 1, 1, 0, [Live(v), Dead(v)]);
    assert EmptyBlock(2, v).slots[0 := Live(v)] == [Live(v), Dead(v)];
    var m := Double([0, NULL], 0, v, second);
    Goes(State(Double([0, NULL], 0, v, EmptyBlock(2, v)), Adding(v, Init(0, 1)), c), tick,
         State(m, Adding(v, Link(0, 1)), c));
    Goes(State(m, Adding(v, Link(0, 1)), c), tick,
         State(Double([0, 0], 0, v, second), Adding(v, Splice(0, 1)), c));
    Goes(State(Double([0, 0], 0, v, second), Adding(v, Splice(0, 1)), c), tick,
         State(Double([1, 0], 0, v, second), Adding(v, StoreTailBlock(1)), c));
    Goes(State(Double([1, 0], 0, v, second), Adding(v, StoreTailBlock(1)), c), tick,
         State(Double([1, 0], 1, v, second), PIdle(Accepted), c));
  }

  /** The re-check at 255 does find an element in some run: the double-checked read is
      needed. */
  lemma RecheckFinds(v: Elem) returns (c: Config)
    ensures Reachable(c, 1, 2) && c.s.c == CBusy(TryDequeue, Reread)
    ensures Next(c, StepConsumer).s.c == CBusy(TryDequeue, Move(0, 0))
  {
    MovesOn(v);
    hide MaskInc, IsPow2, Reachable;
    var m := Double([1, 0], 1, v, Block(0, 1, 1, 0, [Live(v), Dead(v)]));
    Goes(State(m, PIdle(Accepted), Looking(ReadTailBlock(0))), StepConsumer,
         State(m, PIdle(Accepted), Looking(Reread)));
    var h: History :| Reachable(Config(State(m, PIdle(Accepted), Looking(Reread)), h), 1, 2);
    c := Config(State(m, PIdle(Accepted), Looking(Reread)), h);
  }
}
