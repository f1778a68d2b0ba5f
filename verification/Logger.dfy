/** The ring of the most recent records in src/logger.cpp. */
module Logger {
  /** The last n elements of s, or all of them. */
  function LastN<T>(s: seq<T>, n: nat): (r: seq<T>) {
    if |s| <= n then s else s[|s| - n..]
  }

  /** Keeping only the last n may be done after every step. */
  lemma LastNStep<T>(s: seq<T>, x: T, n: nat)
    ensures LastN(LastN(s, n) + [x], n) == LastN(s + [x], n)
  {
  }

  datatype Record<State, Command> = Record(state: State, command: Command)

  /** The place in a ring of the given size that comes i places after front. */
  function RingAt(front: nat, size: nat, i: nat): (r: nat)
    requires 0 < size
    ensures r < size
  {
    (front + i) % size
  }

  /** Inside one turn, the place is found without division. */
  lemma RingAtIs(front: nat, size: nat, i: nat)
    requires front <= size && i < size
    ensures RingAt(front, size, i) == if front + i < size then front + i else front + i - size
  {
    if front + i < size {
      SmallRemainder(front + i, size);
    } else {
      SmallRemainder(front + i - size, size);
      RemainderOfSum(front + i - size, size);
    }
  }

  lemma SmallRemainder(x: nat, size: nat)
    requires x < size
    ensures x % size == x
  {
  }

  lemma RemainderOfSum(x: nat, size: nat)
    requires x < size
    ensures (x + size) % size == x
  {
    assert (x + size) / size == 1;
  }

  /** The records of a ring, oldest first. */
  function Unrolled<S, C>(states: seq<S>, commands: seq<C>, front: nat, size: nat): (r: seq<Record<S, C>>)
    requires |states| == |commands| && size <= |states|
    ensures |r| == size
  {
    if size == 0 then []
    else
      seq(size, i requires 0 <= i < size =>
        Record(states[RingAt(front, size, i)], commands[RingAt(front, size, i)]))
  }

  /** A ring fills up from index 0 and from then on is full. */
  predicate RingShape(front: nat, size: nat, capacity: nat) {
    size <= capacity && (if size < capacity then front == size else front < capacity || capacity == 0)
  }

  lemma UnrolledAt<S, C>(states: seq<S>, commands: seq<C>, front: nat, size: nat, i: nat)
    requires |states| == |commands| && front <= size <= |states| && i < size
    ensures var k := if front + i < size then front + i else front + i - size;
            Unrolled(states, commands, front, size)[i] == Record(states[k], commands[k])
  {
    RingAtIs(front, size, i);
    hide RingAt;
  }

  lemma NextFront(front: nat, n: nat)
    requires front < n
    ensures (front + 1) % n == if front + 1 < n then front + 1 else 0
  {
    if front + 1 < n {
      SmallRemainder(front + 1, n);
    } else {
      RemainderOfSum(0, n);
    }
  }

  /** Writing at the front drops the oldest record of a full ring and keeps all others in order. */
  lemma PushUnrolled<S, C>(states: seq<S>, commands: seq<C>, front: nat, size: nat, s: S, c: C)
    requires |states| == |commands| > 0 && RingShape(front, size, |states|)
    ensures var n := |states|;
            var front', size' := (front + 1) % n, if n < size + 1 then n else size + 1;
            && front < n && RingShape(front', size', n)
            && Unrolled(states[front := s], commands[front := c], front', size')
            == LastN(Unrolled(states, commands, front, size) + [Record(s, c)], n)
  {
    hide RingAt, Unrolled;
    var n := |states|;
    var front', size' := if front + 1 < n then front + 1 else 0, if n < size + 1 then n else size + 1;
    NextFront(front, n);
    var was, now := Unrolled(states, commands, front, size), Unrolled(states[front := s], commands[front := c], front', size');
    forall i | 0 <= i < size'
      ensures now[i] == LastN(was + [Record(s, c)], n)[i]
    {
      UnrolledAt(states[front := s], commands[front := c], front', size', i);
      if size < n {
        if i < size {
          UnrolledAt(states, commands, front, size, i);
        }
      } else if i + 1 < size {
        UnrolledAt(states, commands, front, size, i + 1);
      }
    }
  }

  class Logger<State(0), Command(0)> {
    const logSize: nat
    const states: array<State>
    const commands: array<Command>
    var ringFront: nat
    var ringSize: nat
    /** Every record logged since the last flush. */
    ghost var logged: seq<Record<State, Command>>

    ghost predicate Valid()
      reads this, states, commands
    {
      && states.Length == commands.Length == logSize
      && states as object != commands as object
      && RingShape(ringFront, ringSize, logSize)
      && Contents() == LastN(logged, logSize)
    }

    /** What flush would return. */
    ghost function Contents(): (r: seq<Record<State, Command>>)
      reads this, states, commands
      requires states.Length == commands.Length == logSize && ringSize <= logSize
    {
      Unrolled(states[..], commands[..], ringFront, ringSize)
    }

    constructor (logSize: nat)
      ensures Valid() && fresh(states) && fresh(commands)
      ensures this.logSize == logSize && logged == [] && Contents() == []
    {
      this.logSize := logSize;
      states := new State[logSize];
      commands := new Command[logSize];
      ringFront, ringSize, logged := 0, 0, [];
    }

    method Log(state: State, command: Command)
      requires Valid()
      modifies this, states, commands
      ensures Valid() && logged == old(logged) + [Record(state, command)]
      ensures Contents() == LastN(old(Contents()) + [Record(state, command)], logSize)
    {
      LastNStep(logged, Record(state, command), logSize);
      logged := logged + [Record(state, command)];
      hide LastN, RingAt, Unrolled;
      if logSize == 0 {
        return;
      }
      PushUnrolled(states[..], commands[..], ringFront, ringSize, state, command);
      commands[ringFront] := command;
      states[ringFront] := state;
      ringFront := (ringFront + 1) % logSize;
      ringSize := if logSize < ringSize + 1 then logSize else ringSize + 1;
    }

    method Flush() returns (log: seq<Record<State, Command>>)
      requires Valid()
      modifies this
      ensures Valid() && logged == [] && Contents() == []
      ensures log == LastN(old(logged), logSize)
    {
      log := [];
      for i := 0 to ringSize
        invariant log == Contents()[..i]
      {
        var wrappedIndex := (ringFront + i) % ringSize;
        log := log + [Record(states[wrappedIndex], commands[wrappedIndex])];
      }
      ringFront, ringSize, logged := 0, 0, [];
    }
  }
}
