/**
 Transactional settings: commits are published into a ring buffer of bounded length, staged values
 wait in a list until their token is committed, and old entries expire by count and by time. The
 functions work on the unbounded log of everything ever published; the class keeps only the ring.
 */
module SettingHistory {
  import opened Wrappers

  const BUFFER_MARGIN: nat := 8

  datatype Node<U> = Node(value: U, validSince: int, lastAccess: int)

  /** The null token stands for the token that is empty. */
  datatype Token = NullToken | Token(name: string)

  datatype Staged<T> = Staged(token: Token, value: T)

  /** `timeOut` is in the unit of the time stamps; there is no expiry by time unless it is positive. */
  datatype Limits = Limits(size: nat, timeOut: int)

  /** The log of all published nodes, the first one that is still live, and the staged values. */
  datatype History<T, U> = History(log: seq<Node<U>>, tail: nat, pending: seq<Staged<T>>)

  predicate Valid<T, U>(h: History<T, U>, limits: Limits) {
    && BUFFER_MARGIN < limits.size
    && h.tail < |h.log|
    && |h.log| - 1 - h.tail <= limits.size - BUFFER_MARGIN
  }

  function Latest<T, U>(h: History<T, U>): U
    requires h.log != []
  {
    h.log[|h.log| - 1].value
  }

  // ----- expiry -----------------------------------------------------------------------------------------

  predicate Expired<U>(node: Node<U>, limits: Limits, now: int) {
    node.lastAccess - now + limits.timeOut < 0
  }

  function CountTail(head: nat, tail: nat, limits: Limits): nat
    requires BUFFER_MARGIN < limits.size
  {
    if head - tail > limits.size - BUFFER_MARGIN then head - (limits.size - BUFFER_MARGIN) else tail
  }

  /** One past the last expired entry in `[tail, end)`, or `tail` if there is none. */
  function TimeTail<U>(log: seq<Node<U>>, tail: nat, end: nat, limits: Limits, now: int): (t: nat)
    requires tail <= end <= |log|
    ensures tail <= t <= end
    ensures forall i | t <= i < end :: !Expired(log[i], limits, now)
    ensures t > tail ==> Expired(log[t - 1], limits, now)
  {
    if end == tail then tail
    else if Expired(log[end - 1], limits, now) then end
    else TimeTail(log, tail, end - 1, limits, now)
  }

  function RetiredTail<U>(log: seq<Node<U>>, tail: nat, limits: Limits, now: int): (t: nat)
    requires BUFFER_MARGIN < limits.size && tail < |log|
    ensures tail <= t < |log|
    ensures |log| - 1 - t <= limits.size - BUFFER_MARGIN
  {
    var counted := CountTail(|log| - 1, tail, limits);
    if limits.timeOut > 0 then TimeTail(log, counted, |log| - 1, limits, now) else counted
  }

  function Retire<T, U>(h: History<T, U>, limits: Limits, now: int): History<T, U>
    requires BUFFER_MARGIN < limits.size && h.tail < |h.log|
  {
    h.(tail := RetiredTail(h.log, h.tail, limits, now))
  }

  // ----- reading and publishing ---------------------------------------------------------------------------

  function Touch<T, U>(h: History<T, U>, i: nat, clock: int): History<T, U>
    requires i < |h.log|
  {
    h.(log := h.log[i := h.log[i].(lastAccess := clock)])
  }

  /** Publishing reads the latest entry, appends the new one and then retires old ones. */
  function Publish<T, U>(h: History<T, U>, limits: Limits, value: U, now: int, read: int, retired: int): History<T, U>
    requires Valid(h, limits)
  {
    var touched := Touch(h, |h.log| - 1, read);
    Retire(touched.(log := touched.log + [Node(value, now, now)]), limits, retired)
  }

  // ----- staged values ------------------------------------------------------------------------------------

  /** Replaces the value of a token, or adds it at the end. */
  function Put<T>(pending: seq<Staged<T>>, token: Token, value: T): seq<Staged<T>> {
    if pending == [] then [Staged(token, value)]
    else if pending[0].token == token then [Staged(token, value)] + pending[1..]
    else [pending[0]] + Put(pending[1..], token, value)
  }

  lemma {:induction false} PutIs<T>(pending: seq<Staged<T>>, token: Token, value: T, i: nat)
    requires i <= |pending| && forall k | 0 <= k < i :: pending[k].token != token
    ensures i == |pending| ==> Put(pending, token, value) == pending + [Staged(token, value)]
    ensures i < |pending| && pending[i].token == token ==> Put(pending, token, value) == pending[i := Staged(token, value)]
  {
    if i > 0 {
      PutIs(pending[1..], token, value, i - 1);
    }
  }

  predicate Chosen<T>(staged: Staged<T>, token: Token) {
    token == NullToken || staged.token == token
  }

  function Matching<T>(pending: seq<Staged<T>>, token: Token): seq<T> {
    if pending == [] then []
    else
      var last := pending[|pending| - 1];
      Matching(pending[..|pending| - 1], token) + if Chosen(last, token) then [last.value] else []
  }

  function Others<T>(pending: seq<Staged<T>>, token: Token): seq<Staged<T>> {
    if pending == [] then []
    else
      var last := pending[|pending| - 1];
      Others(pending[..|pending| - 1], token) + if Chosen(last, token) then [] else [last]
  }

  function StageToken<T, U>(h: History<T, U>, limits: Limits, token: Token, value: T, retired: int): History<T, U>
    requires BUFFER_MARGIN < limits.size && h.tail < |h.log|
  {
    Retire(h.(pending := Put(h.pending, token, value)), limits, retired)
  }

  /** Publishes values one after the other; the clock is read twice for each. */
  function PublishAll<T, U>(h: History<T, U>, limits: Limits, onCommit: (U, T) -> U, values: seq<T>,
                            now: int, clock: nat -> int): (r: History<T, U>)
    requires Valid(h, limits)
    ensures Valid(r, limits)
    decreases |values|
  {
    if values == [] then h
    else
      var n := |values| - 1;
      var before := PublishAll(h, limits, onCommit, values[..n], now, clock);
      Publish(before, limits, onCommit(Latest(before), values[n]), now, clock(2 * n), clock(2 * n + 1))
  }

  function CommitToken<T, U>(h: History<T, U>, limits: Limits, onCommit: (U, T) -> U, token: Token,
                             now: int, clock: nat -> int): History<T, U>
    requires Valid(h, limits)
  {
    PublishAll(h, limits, onCommit, Matching(h.pending, token), now, clock).(pending := Others(h.pending, token))
  }

  lemma ListNext<T>(pending: seq<Staged<T>>, i: nat, token: Token)
    requires i < |pending|
    ensures var chosen := Chosen(pending[i], token);
            && Matching(pending[..i + 1], token)
               == (if chosen then Matching(pending[..i], token) + [pending[i].value] else Matching(pending[..i], token))
            && Others(pending[..i + 1], token)
               == (if chosen then Others(pending[..i], token) else Others(pending[..i], token) + [pending[i]])
  {
    assert pending[..i + 1][..i] == pending[..i];
  }

  lemma ClosesWith<T>(values: seq<T>, value: T)
    ensures var all := values + [value];
            all[..|values|] == values && all[|values|] == value
  {
  }

  lemma PublishLast<T, U>(h: History<T, U>, limits: Limits, onCommit: (U, T) -> U, all: seq<T>, n: nat,
                          now: int, clock: nat -> int, before: History<T, U>)
    requires Valid(h, limits) && |all| == n + 1 && before == PublishAll(h, limits, onCommit, all[..n], now, clock)
    ensures PublishAll(h, limits, onCommit, all, now, clock)
            == Publish(before, limits, onCommit(Latest(before), all[n]), now, clock(2 * n), clock(2 * n + 1))
  {
  }

  // ----- the ring -----------------------------------------------------------------------------------------

  const TWO_31: int := 0x8000_0000
  const TWO_32: int := 0x1_0000_0000

  ghost predicate PowerOfTwo(n: nat) {
    n == 1 || (n % 2 == 0 && n > 0 && PowerOfTwo(n / 2))
  }

  /** The conversion of a 64-bit sequence to 32 bits keeps its low bits, as a signed number. */
  function Int32(sequence: int): int {
    (sequence + TWO_31) % TWO_32 - TWO_31
  }

  /** Masking with `size - 1` is the non-negative remainder when the size is a power of two. */
  function Slot(sequence: nat, size: nat): (slot: nat)
    requires size > 0
    ensures slot < size
  {
    Int32(sequence) % size
  }

  lemma {:induction false} Divides(n: nat, top: nat) returns (m: nat)
    requires PowerOfTwo(n) && PowerOfTwo(top) && n <= top
    ensures n * m == top
  {
    if n == 1 {
      m := top;
    } else {
      m := Divides(n / 2, top / 2);
      assert n * m == 2 * (n / 2 * m);
    }
  }

  lemma ModShift(a: int, k: int, n: int)
    requires n > 0
    ensures (a + k * n) % n == a % n
  {
    var q, r := a / n, a % n;
    assert a + k * n == (q + k) * n + r;
    Remainder(a + k * n, q + k, r, n);
  }

  lemma Multiple(d: int, n: int)
    requires n > 0
    ensures d >= 1 ==> d * n >= n
    ensures d <= -1 ==> d * n <= -n
  {
  }

  lemma Remainder(a: int, q: int, r: int, n: int)
    requires n > 0 && a == q * n + r && 0 <= r < n
    ensures a % n == r
  {
    var d := a / n - q;
    assert d * n == r - a % n;
    Multiple(d, n);
  }

  lemma Doubled(n: nat)
    requires PowerOfTwo(n)
    ensures PowerOfTwo(2 * n)
  {
    assert 2 * n / 2 == n && 2 * n % 2 == 0;
  }

  lemma Times16(n: nat)
    requires PowerOfTwo(n)
    ensures PowerOfTwo(16 * n)
  {
    Doubled(n);
    Doubled(2 * n);
    Doubled(4 * n);
    Doubled(8 * n);
  }

  lemma WordIsPower()
    ensures PowerOfTwo(TWO_32)
  {
    Times16(1);
    Times16(0x10);
    Times16(0x100);
    Times16(0x1000);
    Times16(0x1_0000);
    Times16(0x10_0000);
    Times16(0x100_0000);
    Times16(0x1000_0000);
  }

  lemma TruncationShifts(sequence: int, size: nat, m: nat) returns (k: int)
    requires size * m == TWO_32
    ensures Int32(sequence) == sequence + k * size
  {
    var q := (sequence + TWO_31) / TWO_32;
    k := -q * m;
    assert k * size == -q * (size * m);
  }

  /** Neither the truncation nor the mask changes the remainder by the size of the ring. */
  lemma SlotIs(sequence: nat, size: nat)
    requires PowerOfTwo(size) && size <= TWO_32
    ensures Slot(sequence, size) == sequence % size
  {
    WordIsPower();
    var m := Divides(size, TWO_32);
    var k := TruncationShifts(sequence, size, m);
    ModShift(sequence, k, size);
  }

  lemma RemaindersDiffer(i: int, j: int, n: int)
    requires n > 0 && i < j < i + n
    ensures i % n != j % n
  {
    var d := j / n - i / n;
    assert d * n == j - i - (j % n - i % n);
    Multiple(d, n);
  }

  /** Entries closer than the size of the ring lie in different slots. */
  lemma SlotsDiffer(i: nat, j: nat, size: nat)
    requires PowerOfTwo(size) && size <= TWO_32 && i < j < i + size
    ensures Slot(i, size) != Slot(j, size)
  {
    SlotIs(i, size);
    SlotIs(j, size);
    RemaindersDiffer(i, j, size);
  }

  class SettingBase<T, U> {
    const limits: Limits
    const onCommit: (U, T) -> U
    const ring: array<Node<U>>
    var cursor: int
    var gatingCache: int
    var head: nat
    var tail: nat
    var pending: seq<Staged<T>>
    /** Everything ever published; the ring holds the live end of it. */
    ghost var log: seq<Node<U>>

    /** The live end of the log is in the ring, each entry in a slot of its own. */
    ghost predicate Live()
      reads this, ring
    {
      && BUFFER_MARGIN < limits.size == ring.Length <= TWO_31 && PowerOfTwo(limits.size)
      && head == |log| - 1 && tail <= head < tail + limits.size
      && forall i {:trigger Slot(i, limits.size)} | tail <= i <= head :: ring[Slot(i, limits.size)] == log[i]
    }

    ghost predicate Consistent()
      reads this, ring
    {
      Live() && cursor == head && gatingCache <= tail && head - tail <= limits.size - BUFFER_MARGIN
    }

    ghost function View(): History<T, U>
      reads this
    {
      History(log, tail, pending)
    }

    /** The first publication claims sequence 0, and adding the gating sequences sets both to it. */
    constructor (limits: Limits, onCommit: (U, T) -> U, initial: U, now: int)
      requires BUFFER_MARGIN < limits.size <= TWO_31 && PowerOfTwo(limits.size)
      ensures Consistent() && fresh(ring) && this.limits == limits && this.onCommit == onCommit
      ensures View() == History([Node(initial, now, now)], 0, [])
    {
      this.limits, this.onCommit := limits, onCommit;
      ring := new Node<U>[limits.size](_ => Node(initial, now, now));
      cursor, gatingCache, head, tail := 0, -1, 0, 0;
      pending := [];
      log := [Node(initial, now, now)];
    }

    /** Claims the next sequence unless its slot may still be in use. */
    method TryNext() returns (sequence: Option<nat>)
      requires Consistent()
      modifies `cursor, `gatingCache
      ensures sequence == Some(head + 1) && cursor == head + 1 && gatingCache <= tail
    {
      var wrapPoint := cursor + 1 - limits.size;
      if wrapPoint > gatingCache || gatingCache > cursor {
        var minimum := if tail < cursor then tail else cursor;
        gatingCache := minimum;
        if wrapPoint > minimum {
          return None;
        }
      }
      cursor := cursor + 1;
      sequence := Some(cursor);
    }

    /** The entry `-idx` commits ago, which counts as an access. */
    method Get(idx: int, clock: int) returns (r: Option<Node<U>>)
      requires Live()
      modifies this`log, ring
      ensures Live()
      ensures r.Some? <==> idx <= 0 && head + idx >= tail
      ensures r.Some? ==> View() == Touch(old(View()), head + idx, clock) && r.value == log[head + idx]
      ensures r.None? ==> View() == old(View())
    {
      if idx > 0 || head + idx < tail {
        return None;
      }
      var readIdx: nat := head + idx;
      TouchSlot(readIdx, clock);
      r := Some(ring[Slot(readIdx, limits.size)]);
    }

    method TouchSlot(i: nat, clock: int)
      requires Live() && tail <= i <= head
      modifies this`log, ring
      ensures Live() && View() == Touch(old(View()), i, clock)
    {
      var slot := Slot(i, limits.size);
      forall j | tail <= j <= head && j != i ensures Slot(j, limits.size) != slot {
        SlotsDiffer(if i < j then i else j, if i < j then j else i, limits.size);
      }
      ring[slot] := ring[slot].(lastAccess := clock);
      log := log[i := log[i].(lastAccess := clock)];
    }

    /** The newest live entry that was valid at the time stamp. */
    method GetAt(timeStamp: int, clock: int) returns (r: Option<Node<U>>, ghost at: nat)
      requires Live()
      modifies this`log, ring
      ensures Live()
      ensures r.None? ==> View() == old(View()) && forall i | tail <= i <= head :: log[i].validSince > timeStamp
      ensures r.Some? ==> tail <= at <= head && r.value == log[at] && log[at].validSince <= timeStamp
      ensures r.Some? ==> forall i | at < i <= head :: log[i].validSince > timeStamp
      ensures r.Some? ==> View() == Touch(old(View()), at, clock)
    {
      var lHead := head;
      while ring[Slot(lHead, limits.size)].validSince > timeStamp && lHead != tail
        invariant tail <= lHead <= head
        invariant forall i | lHead < i <= head :: log[i].validSince > timeStamp
        decreases lHead
      {
        lHead := lHead - 1;
      }
      at := lHead;
      if ring[Slot(lHead, limits.size)].validSince > timeStamp {
        return None, at;
      }
      TouchSlot(lHead, clock);
      r := Some(ring[Slot(lHead, limits.size)]);
    }

    method At(i: nat) returns (entry: Node<U>)
      requires Live() && tail <= i <= head
      ensures entry == log[i]
    {
      entry := ring[Slot(i, limits.size)];
    }

    method Advance()
      requires Consistent() && tail < head
      modifies this`tail
      ensures Consistent() && tail == old(tail) + 1
    {
      tail := tail + 1;
    }

    method RetireByCount()
      requires Live() && cursor == head && gatingCache <= tail
      modifies this`tail
      ensures Consistent() && tail == CountTail(head, old(tail), limits)
    {
      while tail != head && head - tail > limits.size - BUFFER_MARGIN
        invariant old(tail) <= tail <= CountTail(head, old(tail), limits)
      {
        tail := tail + 1;
      }
    }

    /** The scan starts again at the tail whenever it has moved the tail by one. */
    method RetireByTime(now: int)
      requires Consistent()
      modifies this`tail
      ensures Consistent() && tail == TimeTail(log, old(tail), head, limits, now)
    {
      ghost var target := TimeTail(log, tail, head, limits, now);
      var position := tail;
      while position != head
        invariant Consistent() && old(tail) <= tail <= position <= head && tail <= target
        invariant forall i | tail <= i < position :: !Expired(log[i], limits, now)
        decreases head - tail, head - position
      {
        var entry := At(position);
        if Expired(entry, limits, now) {
          Advance();
          position := tail;
        } else {
          position := position + 1;
        }
      }
    }

    method RetireExpired(now: int)
      requires Live() && cursor == head && gatingCache <= tail
      modifies this`tail
      ensures Consistent() && View() == Retire(old(View()), limits, now)
    {
      RetireByCount();
      if limits.timeOut > 0 {
        RetireByTime(now);
      }
    }

    /** Writes the claimed slot, which no live entry uses, and moves the head. */
    method Store(value: U, now: int)
      requires Live() && head - tail <= limits.size - BUFFER_MARGIN
      modifies this`head, this`log, ring
      ensures Live() && head == old(head) + 1 && log == old(log) + [Node(value, now, now)]
    {
      var slot := Slot(head + 1, limits.size);
      forall i | tail <= i <= head ensures Slot(i, limits.size) != slot {
        SlotsDiffer(i, head + 1, limits.size);
      }
      ring[slot] := Node(value, now, now);
      log := log + [Node(value, now, now)];
      head := head + 1;
    }

    /** `stage` without a token: never refused, because expiry always leaves room. */
    method Commit(value: T, now: int, read: int, retired: int) returns (isCommitted: bool)
      requires Consistent()
      modifies this, ring
      ensures Consistent() && isCommitted
      ensures View() == Publish(old(View()), limits, onCommit(Latest(old(View())), value), now, read, retired)
    {
      var sequence := TryNext();
      isCommitted := sequence.Some?;
      if isCommitted {
        var oldValue := Get(0, read);
        Store(onCommit(oldValue.value.value, value), now);
      }
      RetireExpired(retired);
    }

    method ModifySetting(change: U -> U, now: int, read: int, retired: int) returns (isCommitted: bool)
      requires Consistent()
      modifies this, ring
      ensures Consistent() && isCommitted
      ensures View() == Publish(old(View()), limits, change(Latest(old(View()))), now, read, retired)
    {
      var sequence := TryNext();
      isCommitted := sequence.Some?;
      if isCommitted {
        var oldValue := Get(0, read);
        Store(change(oldValue.value.value), now);
      }
      RetireExpired(retired);
    }

    /** `stage` with a token. */
    method Stage(value: T, token: Token, retired: int)
      requires Consistent() && token != NullToken
      modifies this, ring
      ensures Consistent() && View() == StageToken(old(View()), limits, token, value, retired)
    {
      var i := 0;
      while i < |pending| && pending[i].token != token
        invariant 0 <= i <= |pending|
        invariant forall k | 0 <= k < i :: pending[k].token != token
      {
        i := i + 1;
      }
      PutIs(pending, token, value, i);
      pending := if i < |pending| then pending[i := Staged(token, value)] else pending + [Staged(token, value)];
      RetireExpired(retired);
    }

    /** The state after publishing `values` from `start`. */
    ghost predicate Published(start: History<T, U>, values: seq<T>, now: int, clock: nat -> int)
      reads this, ring
    {
      Consistent() && Valid(start, limits) && View() == PublishAll(start, limits, onCommit, values, now, clock)
    }

    method CommitNext(ghost start: History<T, U>, ghost values: seq<T>, value: T, now: int, clock: nat -> int, n: nat)
      requires Published(start, values, now, clock) && n == |values|
      modifies this, ring
      ensures Published(start, values + [value], now, clock)
    {
      ClosesWith(values, value);
      PublishLast(start, limits, onCommit, values + [value], n, now, clock, View());
      var _ := Commit(value, now, clock(2 * n), clock(2 * n + 1));
    }

    /** One entry of the pending list: committed and counted if the token names it, kept otherwise. */
    method CommitEntry(ghost start: History<T, U>, list: seq<Staged<T>>, i: nat, token: Token, now: int,
                       clock: nat -> int, n: nat, rest: seq<Staged<T>>)
      returns (count: nat, kept: seq<Staged<T>>)
      requires i < |list| && n == |Matching(list[..i], token)| && rest == Others(list[..i], token)
      requires Published(start, Matching(list[..i], token), now, clock)
      modifies this, ring
      ensures count == |Matching(list[..i + 1], token)| && kept == Others(list[..i + 1], token)
      ensures Published(start, Matching(list[..i + 1], token), now, clock)
    {
      ListNext(list, i, token);
      count, kept := n, rest;
      if token == NullToken || list[i].token == token {
        CommitNext(start, Matching(list[..i], token), list[i].value, now, clock, n);
        count := n + 1;
      } else {
        kept := rest + [list[i]];
      }
    }

    method CommitMatching(list: seq<Staged<T>>, token: Token, now: int, clock: nat -> int)
      returns (count: nat, rest: seq<Staged<T>>)
      requires Consistent()
      modifies this, ring
      ensures count == |Matching(list, token)| && rest == Others(list, token)
      ensures Published(old(View()), Matching(list, token), now, clock)
    {
      ghost var start := View();
      count, rest := 0, [];
      for i := 0 to |list|
        invariant count == |Matching(list[..i], token)| && rest == Others(list[..i], token)
        invariant Published(start, Matching(list[..i], token), now, clock)
      {
        count, rest := CommitEntry(start, list, i, token, now, clock, count, rest);
      }
      assert list[..|list|] == list;
    }

    method CommitStaged(token: Token, now: int, clock: nat -> int) returns (submitted: bool)
      requires Consistent()
      modifies this, ring
      ensures Consistent() && submitted == (Matching(old(pending), token) != [])
      ensures View() == CommitToken(old(View()), limits, onCommit, token, now, clock)
    {
      var count, rest := CommitMatching(pending, token, now, clock);
      submitted := count > 0;
      pending := rest;
    }

    method RetireStaged(token: Token) returns (retired: bool)
      requires Consistent()
      modifies this`pending
      ensures Consistent() && retired == (Matching(old(pending), token) != [])
      ensures View() == old(View()).(pending := Others(old(pending), token))
    {
      var list, rest: seq<Staged<T>> := pending, [];
      retired := false;
      for i := 0 to |list|
        invariant rest == Others(list[..i], token) && retired == (Matching(list[..i], token) != [])
        invariant pending == list
      {
        ListNext(list, i, token);
        if token == NullToken || list[i].token == token {
          retired := true;
        } else {
          rest := rest + [list[i]];
        }
      }
      assert list[..|list|] == list;
      pending := rest;
    }
  }
}
