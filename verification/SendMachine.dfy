/** The outgoing queue of one client slot under every interleaving of the producers that enqueue packets, and of the
    loop thread that owns the slot: it drains the queue, and it resets the counter on CONNECT and on disconnect without
    taking the lock. The counter is not the queue's length, and the drain loop trusts the counter. */
module SendMachine {
  import opened Wire

  /** A packet being sent: what recv's peer has been given of it is behind wcur. */
  datatype Current = NoPacket | Sending(bytes: seq<byte>, wcur: nat)

  /** A producer inside publish_msg or ack_msg. The increment is a load and a store, as the machine makes it. */
  datatype Producer =
    | Away
    | Locked(packet: seq<byte>)   // has sending_lock, has not linked its packet yet
    | Linked                      // linked it, has not touched the counter
    | Loaded(value: int)          // loaded the counter
    | Stored                      // stored it, still has the lock

  /** The owner: outside the drain loop, or somewhere in it with the number of rounds still to go. */
  datatype Owner =
    | Outside
    | Cleaning                    // clean_context after num_sending_pack = 0, before the current packet is dropped
    | Rounds(left: int)           // at the head of while (num_sending-- > 0)
    | Popping(left: int)          // has sending_lock, before the pop
    | Popped(left: int)           // after the pop, before the decrement
    | Counted(left: int)          // after the decrement, still has the lock
    | Writing(left: int)          // in the send loop, using the current packet

  datatype State = State(
    queue: seq<seq<byte>>,        // sending_packet up to sending_packet_tail
    cur: Current,                 // sending_cur_packet
    num: int,                     // num_sending_pack
    producers: seq<Producer>,
    owner: Owner,
    offered: seq<byte>,           // what this connection has been offered: all packets in the order they were linked
    accepted: seq<byte>)          // what send has accepted from it

  predicate OwnerHasLock(o: Owner) { o.Popping? || o.Popped? || o.Counted? }

  /** sending_lock is free. */
  predicate LockFree(s: State)
  {
    !OwnerHasLock(s.owner) && forall i | 0 <= i < |s.producers| :: s.producers[i].Away?
  }

  // ---------- steps ----------

  /** One step of producer i. */
  predicate ProducerStep(s: State, s': State, i: nat)
  {
    && i < |s.producers| == |s'.producers|
    && var p, p' := s.producers[i], s'.producers[i];
    match p
    case Away =>
      LockFree(s) && p'.Locked? && p'.packet != [] && s' == s.(producers := s.producers[i := p'])
    case Locked(packet) =>
      s' == s.(producers := s.producers[i := Linked], queue := s.queue + [packet], offered := s.offered + packet)
    case Linked => s' == s.(producers := s.producers[i := Loaded(s.num)])
    case Loaded(v) => s' == s.(producers := s.producers[i := Stored], num := v + 1)
    case Stored => s' == s.(producers := s.producers[i := Away])
  }

  function Rest(c: Current): seq<byte>
  {
    if c.Sending? && c.wcur <= |c.bytes| then c.bytes[c.wcur..] else []
  }

  function Concat(queue: seq<seq<byte>>): seq<byte>
  {
    if queue == [] then [] else queue[0] + Concat(queue[1..])
  }

  /** One step of the owner. */
  predicate OwnerStep(s: State, s': State)
  {
    match s.owner
    case Outside =>
      || s' == s.(num := 0)                                                        // add_client, on CONNECT
      || s' == s.(num := 0, owner := Cleaning)                                     // clean_context begins
      || (LockFree(s) && s.num >= 1 && s' == s.(owner := Rounds(s.num)))           // the snapshot, under the read lock
    case Cleaning =>                                                               // the slot's next connection: what
      s' == s.(cur := NoPacket, owner := Outside, offered := Concat(s.queue), accepted := []) // is queued stays queued
    case Rounds(left) =>
      if left > 0 then LockFree(s) && s' == s.(owner := Popping(left - 1)) else s' == s.(owner := Outside)
    case Popping(left) =>
      if s.queue != [] && s.cur.NoPacket? then
        s' == s.(cur := Sending(s.queue[0], 0), queue := s.queue[1..], owner := Popped(left))
      else s' == s.(owner := Popped(left))
    case Popped(left) => s' == s.(num := s.num - 1, owner := Counted(left))
    case Counted(left) => s' == s.(owner := Writing(left))
    case Writing(left) => s.cur.Sending? && WriteStep(s, s', left)
  }

  /** send accepts part of what is left, would block, or fails; a packet that is through is freed. */
  predicate WriteStep(s: State, s': State, left: int)
    requires s.cur.Sending?
  {
    var c := s.cur;
    if c.wcur < |c.bytes| then
      || (s'.cur.Sending? && Accepts(s, s', s'.cur.wcur - c.wcur))
      || s' == s.(owner := Outside)
      || s' == s.(num := 0, owner := Cleaning)
    else s' == s.(cur := NoPacket, owner := Rounds(left))
  }

  /** send takes n more bytes of the current packet. */
  predicate Accepts(s: State, s': State, n: int)
    requires s.cur.Sending?
  {
    var c := s.cur;
    && 1 <= n <= |c.bytes| - c.wcur
    && s' == s.(cur := c.(wcur := c.wcur + n), accepted := s.accepted + c.bytes[c.wcur..c.wcur + n])
  }

  ghost predicate Step(s: State, s': State)
  {
    OwnerStep(s, s') || exists i: nat :: ProducerStep(s, s', i)
  }

  predicate Starts(s: State)
  {
    && s.queue == [] && s.cur.NoPacket? && s.num == 0 && s.owner.Outside? && s.offered == [] && s.accepted == []
    && forall i | 0 <= i < |s.producers| :: s.producers[i].Away?
  }

  /** The owner is about to use the current packet and there is none. */
  predicate NullDereference(s: State) { s.owner.Writing? && s.cur.NoPacket? }

  // ---------- the invariant ----------

  predicate OneHolder(s: State)
  {
    && (forall i, j | 0 <= i < j < |s.producers| :: s.producers[i].Away? || s.producers[j].Away?)
    && (OwnerHasLock(s.owner) ==> forall i | 0 <= i < |s.producers| :: s.producers[i].Away?)
  }

  /** Rounds the drain loop will still take off the counter. */
  function Due(o: Owner): int
  {
    match o
    case Rounds(left) => if left > 0 then left else 0
    case Popping(left) => left + 1
    case Popped(left) => left + 1
    case Counted(left) => left
    case Writing(left) => left
    case _ => 0
  }

  predicate InRounds(o: Owner) { o.Rounds? || o.Popping? || o.Popped? || o.Counted? || o.Writing? }

  /** What is known while producer p holds the lock. */
  predicate HolderOk(s: State, p: Producer)
  {
    && (p.Locked? ==> p.packet != [])
    && (p.Linked? ==> s.num < |s.queue|)
    && (p.Loaded? ==> s.num <= p.value < |s.queue| && Due(s.owner) <= p.value)
  }

  /** The counter never promises more than the queue holds, but for the packet just taken off it; and it never falls
      behind what the drain loop has promised itself. */
  predicate CountOk(s: State)
  {
    && 0 <= s.num && Due(s.owner) <= s.num
    && (InRounds(s.owner) ==> Due(s.owner) >= 0)
    && s.num <= |s.queue| + (if s.owner.Popped? then 1 else 0)
    && (s.owner.Popping? ==> s.num >= 1)
    && (s.owner.Popped? || s.owner.Counted? || s.owner.Writing? ==> s.cur.Sending?)
    && (s.owner.Popping? || s.owner.Popped? || s.owner.Counted? || s.owner.Writing? ==> s.owner.left >= 0)
    && forall i | 0 <= i < |s.producers| :: HolderOk(s, s.producers[i])
  }

  /** Every offered byte is accepted, in the current packet's rest, or queued: in this order, none lost, none twice. */
  predicate BytesOk(s: State)
  {
    && (s.cur.Sending? ==> s.cur.wcur <= |s.cur.bytes|)
    && s.offered == s.accepted + Rest(s.cur) + Concat(s.queue)
  }

  /** No packet in the queue is empty. */
  predicate NoneEmpty(s: State) { forall i | 0 <= i < |s.queue| :: s.queue[i] != [] }

  predicate Inv(s: State) { OneHolder(s) && CountOk(s) && BytesOk(s) && NoneEmpty(s) }

  lemma {:induction false} ConcatAppend(queue: seq<seq<byte>>, packet: seq<byte>)
    ensures Concat(queue + [packet]) == Concat(queue) + packet
  {
    if queue == [] {
      assert queue + [packet] == [packet];
      assert Concat([packet][1..]) == [];
    } else {
      assert (queue + [packet])[1..] == queue[1..] + [packet];
      ConcatAppend(queue[1..], packet);
    }
  }

  lemma StartInv(s: State)
    requires Starts(s)
    ensures Inv(s)
  {
  }

  lemma ProducerKeepsLock(s: State, s': State, i: nat)
    requires Inv(s) && ProducerStep(s, s', i)
    ensures OneHolder(s')
    ensures s'.owner == s.owner && s'.cur == s.cur && s'.accepted == s.accepted
    ensures forall j | 0 <= j < |s.producers| && j != i :: s'.producers[j].Away? && s.producers[j].Away?
  {
    forall j | 0 <= j < |s.producers| && j != i ensures s.producers[j].Away? {
    }
  }

  lemma ProducerKeepsCount(s: State, s': State, i: nat)
    requires Inv(s) && ProducerStep(s, s', i)
    ensures CountOk(s')
  {
    ProducerKeepsLock(s, s', i);
    assert HolderOk(s, s.producers[i]);
    assert HolderOk(s', s'.producers[i]);
    forall j | 0 <= j < |s'.producers| ensures HolderOk(s', s'.producers[j]) {
    }
  }

  lemma ProducerKeepsBytes(s: State, s': State, i: nat)
    requires Inv(s) && ProducerStep(s, s', i)
    ensures BytesOk(s')
  {
    if s.producers[i].Locked? {
      var packet := s.producers[i].packet;
      ConcatAppend(s.queue, packet);
      assert s.accepted + Rest(s.cur) + Concat(s.queue) + packet == s.accepted + Rest(s.cur) + (Concat(s.queue) + packet);
    }
  }

  lemma AcceptKeepsBytes(s: State, s': State, n: int)
    requires Inv(s) && s.cur.Sending? && Accepts(s, s', n)
    ensures BytesOk(s')
  {
    var c := s.cur;
    assert Rest(c) == c.bytes[c.wcur..c.wcur + n] + Rest(s'.cur);
    assert s.accepted + Rest(c) == s'.accepted + Rest(s'.cur);
  }

  lemma PopKeepsBytes(s: State, s': State)
    requires Inv(s) && OwnerStep(s, s') && s.owner.Popping?
    ensures BytesOk(s')
  {
    if s.queue != [] && s.cur.NoPacket? {
      var first := s.queue[0];
      assert first[0..] == first;
      assert s.accepted + [] + (first + Concat(s.queue[1..])) == s.accepted + first + Concat(s.queue[1..]);
    }
  }

  lemma OwnerKeepsBytes(s: State, s': State)
    requires Inv(s) && OwnerStep(s, s')
    ensures BytesOk(s')
  {
    if s.owner.Cleaning? {
      assert [] + [] + Concat(s.queue) == Concat(s.queue);
    } else if s.owner.Popping? {
      PopKeepsBytes(s, s');
    } else if s.owner.Writing? && s'.cur.Sending? && s'.cur.wcur != s.cur.wcur {
      AcceptKeepsBytes(s, s', s'.cur.wcur - s.cur.wcur);
    } else if s.owner.Writing? && s.cur.wcur >= |s.cur.bytes| {
      assert Rest(s.cur) == [];
    }
  }

  lemma OwnerKeepsCount(s: State, s': State)
    requires Inv(s) && OwnerStep(s, s')
    ensures OneHolder(s') && CountOk(s')
  {
    forall i | 0 <= i < |s'.producers| ensures HolderOk(s', s'.producers[i]) {
      assert HolderOk(s, s.producers[i]);
    }
  }

  lemma StepKeepsPackets(s: State, s': State)
    requires Inv(s) && Step(s, s')
    ensures NoneEmpty(s')
  {
    forall i | 0 <= i < |s.producers| ensures HolderOk(s, s.producers[i]) {
    }
  }

  lemma StepInv(s: State, s': State)
    requires Inv(s) && Step(s, s')
    ensures Inv(s')
  {
    StepKeepsPackets(s, s');
    if OwnerStep(s, s') {
      OwnerKeepsBytes(s, s');
      OwnerKeepsCount(s, s');
    } else {
      var i: nat :| ProducerStep(s, s', i);
      ProducerKeepsLock(s, s', i);
      ProducerKeepsCount(s, s', i);
      ProducerKeepsBytes(s, s', i);
    }
  }

  // ---------- whole runs ----------

  ghost predicate Run(run: seq<State>)
  {
    |run| > 0 && Starts(run[0]) && forall k | 0 <= k < |run| - 1 :: Step(run[k], run[k + 1])
  }

  lemma {:induction false} RunInv(run: seq<State>, k: nat)
    requires Run(run) && k < |run|
    ensures Inv(run[k])
    decreases k
  {
    if k == 0 {
      StartInv(run[0]);
    } else {
      RunInv(run, k - 1);
      assert Step(run[k - 1], run[k]);
      StepInv(run[k - 1], run[k]);
    }
  }

  /** In no run does the drain loop use a packet that is not there, and the counter stays between 0 and what is queued
      and in hand; the rounds it still has to go are covered by the counter. */
  lemma DrainIsSafe(run: seq<State>, k: nat)
    requires Run(run) && k < |run|
    ensures !NullDereference(run[k])
    ensures 0 <= run[k].num <= |run[k].queue| + (if run[k].cur.Sending? then 1 else 0)
    ensures run[k].owner.Rounds? ==> run[k].owner.left <= run[k].num
  {
    RunInv(run, k);
  }

  /** In every run what send has accepted is a beginning of what the connection was offered, and what is missing is the
      rest of the current packet and the queue. */
  lemma AcceptedIsPrefix(run: seq<State>, k: nat)
    requires Run(run) && k < |run|
    ensures run[k].accepted <= run[k].offered
    ensures |run[k].accepted| + |Rest(run[k].cur)| + |Concat(run[k].queue)| == |run[k].offered|
    ensures run[k].offered == run[k].accepted + Rest(run[k].cur) + Concat(run[k].queue)
  {
    RunInv(run, k);
    assert run[k].accepted <= run[k].accepted + Rest(run[k].cur) <= run[k].offered;
  }

  // ---------- when the counter is the queue's length ----------

  /** A producer has linked its packet and not counted it yet. */
  predicate Uncounted(s: State)
  {
    exists i | 0 <= i < |s.producers| :: s.producers[i].Linked? || s.producers[i].Loaded?
  }

  /** Packets in the queue that the counter does not know of, but for one that is being counted or counted off. */
  function Balance(s: State): int
  {
    |s.queue| - s.num - (if Uncounted(s) then 1 else 0) + (if s.owner.Popped? then 1 else 0)
  }

  /** A round that finds a packet in hand takes none from the queue, but one off the counter. */
  function Resumes(s: State, s': State): int
  {
    if s.owner.Popping? && s'.owner.Popped? && s.cur.Sending? then 1 else 0
  }

  /** What a CONNECT or a disconnect takes off the counter. */
  function Discards(s: State, s': State): int
  {
    if (s.owner.Outside? || s.owner.Writing?) && s'.num == 0 then s.num else 0
  }

  /** What a producer brings back that had loaded the counter before it was set to 0. */
  function Restores(s: State, s': State): int
  {
    if s'.num > s.num then s'.num - s.num - 1 else 0
  }

  function Sum(what: (State, State) -> int, run: seq<State>, k: nat): int
    requires k < |run|
  {
    if k == 0 then 0 else Sum(what, run, k - 1) + what(run[k - 1], run[k])
  }

  lemma ProducerBalance(s: State, s': State, i: nat)
    requires Inv(s) && ProducerStep(s, s', i)
    ensures Balance(s') == Balance(s) - Restores(s, s')
    ensures Resumes(s, s') == 0 && Discards(s, s') == 0
  {
    ProducerKeepsLock(s, s', i);
    assert HolderOk(s, s.producers[i]);
    assert Uncounted(s) <==> s.producers[i].Linked? || s.producers[i].Loaded?;
    assert Uncounted(s') <==> s'.producers[i].Linked? || s'.producers[i].Loaded?;
  }

  lemma OwnerBalance(s: State, s': State)
    requires Inv(s) && OwnerStep(s, s')
    ensures Balance(s') == Balance(s) + Resumes(s, s') + Discards(s, s')
    ensures Restores(s, s') == 0
  {
    assert Uncounted(s') <==> Uncounted(s);
  }

  lemma StepBalance(s: State, s': State)
    requires Inv(s) && Step(s, s')
    ensures Balance(s') == Balance(s) + Resumes(s, s') + Discards(s, s') - Restores(s, s')
    ensures Restores(s, s') >= 0 && Discards(s, s') >= 0
  {
    if OwnerStep(s, s') {
      OwnerBalance(s, s');
    } else {
      var i: nat :| ProducerStep(s, s', i);
      ProducerBalance(s, s', i);
    }
  }

  lemma {:induction false} RunBalance(run: seq<State>, k: nat)
    requires Run(run) && k < |run|
    ensures Balance(run[k]) == Sum(Resumes, run, k) + Sum(Discards, run, k) - Sum(Restores, run, k)
    ensures Sum(Restores, run, k) >= 0 && Sum(Discards, run, k) >= 0
    decreases k
  {
    if k > 0 {
      RunBalance(run, k - 1);
      RunInv(run, k - 1);
      assert Step(run[k - 1], run[k]);
      StepBalance(run[k - 1], run[k]);
    }
  }

  /** The exact account of every run: while nobody has the lock, the queue is longer than the counter says by the rounds
      that resumed a packet in hand and by what CONNECT and disconnect took off the counter for good. */
  lemma CounterAccount(run: seq<State>, k: nat)
    requires Run(run) && k < |run| && LockFree(run[k])
    ensures |run[k].queue| - run[k].num == Sum(Resumes, run, k) + Sum(Discards, run, k) - Sum(Restores, run, k)
    ensures run[k].num == |run[k].queue| <==> Sum(Resumes, run, k) + Sum(Discards, run, k) == Sum(Restores, run, k)
  {
    RunBalance(run, k);
  }

  /** CONNECT and disconnect only ever found a counter of 0: it has fallen in no other way than packet by packet. */
  predicate FallsByOne(run: seq<State>, k: nat)
    requires k < |run|
  {
    forall j | 0 <= j < k :: run[j + 1].num < run[j].num ==> run[j].owner.Popped?
  }

  /** A producer stores what it loaded, and one more. */
  predicate LoadedNow(s: State)
  {
    forall i | 0 <= i < |s.producers| :: s.producers[i].Loaded? ==> s.producers[i].value == s.num
  }

  lemma LoadedKept(s: State, s': State)
    requires Inv(s) && LoadedNow(s) && Step(s, s') && (s'.num < s.num ==> s.owner.Popped?)
    ensures LoadedNow(s') && Discards(s, s') == 0 && Restores(s, s') == 0
  {
    if !OwnerStep(s, s') {
      var i: nat :| ProducerStep(s, s', i);
      ProducerKeepsLock(s, s', i);
    }
  }

  lemma {:induction false} NothingLost(run: seq<State>, k: nat)
    requires Run(run) && k < |run| && FallsByOne(run, k)
    ensures LoadedNow(run[k]) && Sum(Discards, run, k) == 0 && Sum(Restores, run, k) == 0
    decreases k
  {
    if k > 0 {
      NothingLost(run, k - 1);
      RunInv(run, k - 1);
      assert Step(run[k - 1], run[k]);
      LoadedKept(run[k - 1], run[k]);
    }
  }

  /** No round so far has found a packet in hand. */
  predicate NeverResumed(run: seq<State>, k: nat)
    requires k < |run|
  {
    forall j | 0 <= j < k :: Resumes(run[j], run[j + 1]) == 0
  }

  lemma {:induction false} ResumedSum(run: seq<State>, k: nat)
    requires k < |run|
    ensures Sum(Resumes, run, k) >= 0
    ensures Sum(Resumes, run, k) == 0 <==> NeverResumed(run, k)
    decreases k
  {
    if k > 0 {
      ResumedSum(run, k - 1);
      if NeverResumed(run, k - 1) && Resumes(run[k - 1], run[k]) == 0 {
        forall j | 0 <= j < k ensures Resumes(run[j], run[j + 1]) == 0 {
          assert j < k - 1 || j == k - 1;
        }
      }
    }
  }

  /** Between resets the counter lags behind the queue by the rounds that resumed a packet, and is the queue's length
      exactly if there was none. */
  lemma CounterIsLength(run: seq<State>, k: nat)
    requires Run(run) && k < |run| && LockFree(run[k]) && FallsByOne(run, k)
    ensures |run[k].queue| - run[k].num == Sum(Resumes, run, k) >= 0
    ensures run[k].num == |run[k].queue| <==> NeverResumed(run, k)
  {
    CounterAccount(run, k);
    NothingLost(run, k);
    ResumedSum(run, k);
  }

  /** send has left the loop with a packet in hand. */
  predicate Blocks(s: State, s': State) { s.owner.Writing? && s'.owner.Outside? }

  /** A packet is in hand only while a round works on it, or until clean_context drops it. */
  predicate InHand(s: State)
  {
    s.cur.Sending? ==> s.owner.Popped? || s.owner.Counted? || s.owner.Writing? || s.owner.Cleaning?
  }

  lemma {:induction false} UnblockedInHand(run: seq<State>, k: nat)
    requires Run(run) && k < |run| && forall j | 0 <= j < k :: !Blocks(run[j], run[j + 1])
    ensures InHand(run[k])
    decreases k
  {
    if k > 0 {
      UnblockedInHand(run, k - 1);
      assert Step(run[k - 1], run[k]) && !Blocks(run[k - 1], run[k]);
    }
  }

  /** As long as send never leaves a packet in hand, no round resumes one. */
  lemma UnblockedNeverResumes(run: seq<State>, k: nat)
    requires Run(run) && k < |run| && forall j | 0 <= j < k :: !Blocks(run[j], run[j + 1])
    ensures NeverResumed(run, k)
  {
    forall j | 0 <= j < k ensures Resumes(run[j], run[j + 1]) == 0 {
      UnblockedInHand(run, j);
    }
  }

  // ---------- a packet may wait although the connection is idle ----------

  ghost predicate Reachable(s: State)
  {
    exists run :: Run(run) && run[|run| - 1] == s
  }

  lemma ReachStart(s: State)
    requires Starts(s)
    ensures Reachable(s)
  {
    assert Run([s]);
  }

  lemma ReachStep(s: State, s': State)
    requires Reachable(s) && Step(s, s')
    ensures Reachable(s')
  {
    var run :| Run(run) && run[|run| - 1] == s;
    var longer := run + [s'];
    forall k | 0 <= k < |longer| - 1 ensures Step(longer[k], longer[k + 1]) {
    }
    assert Run(longer);
  }

  /** A producer enqueues one packet while nobody else has the lock. */
  lemma ReachEnqueue(s: State, packet: seq<byte>) returns (s': State)
    requires Reachable(s) && s.producers == [Away] && LockFree(s) && packet != []
    ensures Reachable(s')
    ensures s' == s.(queue := s.queue + [packet], num := s.num + 1, offered := s.offered + packet)
  {
    var a := s.(producers := [Locked(packet)]);
    assert ProducerStep(s, a, 0);
    ReachStep(s, a);
    var b := a.(producers := [Linked], queue := s.queue + [packet], offered := s.offered + packet);
    assert ProducerStep(a, b, 0);
    ReachStep(a, b);
    var c := b.(producers := [Loaded(s.num)]);
    assert ProducerStep(b, c, 0);
    ReachStep(b, c);
    var d := c.(producers := [Stored], num := s.num + 1);
    assert ProducerStep(c, d, 0);
    ReachStep(c, d);
    s' := d.(producers := [Away]);
    assert ProducerStep(d, s', 0);
    ReachStep(d, s');
  }

  /** The owner takes a snapshot of 1 and comes to the send loop. */
  lemma ReachWriting(s: State) returns (s': State)
    requires Reachable(s) && s.producers == [Away] && s.owner.Outside? && s.num == 1
    requires s.cur.Sending? || s.queue != []
    ensures Reachable(s')
    ensures s' == s.(num := 0, owner := Writing(0),
                     cur := if s.cur.Sending? then s.cur else Sending(s.queue[0], 0),
                     queue := if s.cur.Sending? then s.queue else s.queue[1..])
  {
    var a := s.(owner := Rounds(1));
    ReachStep(s, a);
    var b := a.(owner := Popping(0));
    ReachStep(a, b);
    var c := b.(owner := Popped(0),
                cur := if s.cur.Sending? then s.cur else Sending(s.queue[0], 0),
                queue := if s.cur.Sending? then s.queue else s.queue[1..]);
    ReachStep(b, c);
    var d := c.(num := 0, owner := Counted(0));
    ReachStep(c, d);
    s' := d.(owner := Writing(0));
    ReachStep(d, s');
  }

  /** The counter is not the queue's length: when a blocked packet is resumed, the round that finishes it uses up the
      count of the packet behind it. With everybody idle, that packet then waits for the next one to be enqueued. */
  lemma QueueMayWait(x: byte, y: byte) returns (s: State)
    ensures Reachable(s) && s.queue == [[y]] && s.num == 0 && s.cur.NoPacket?
    ensures s.owner.Outside? && s.producers == [Away] && s.accepted == [x] && s.offered == [x, y]
  {
    s := State([], NoPacket, 0, [Away], Outside, [], []);
    ReachStart(s);
    s := ReachEnqueue(s, [x]);
    assert [] + [x] == [x];
    s := ReachWriting(s);
    var blocked := s.(owner := Outside);
    ReachStep(s, blocked);
    s := ReachEnqueue(blocked, [y]);
    s := ReachWriting(s);
    var sent := s.(cur := Sending([x], 1), accepted := [x]);
    assert [] + [x][0..1] == [x];
    assert Accepts(s, sent, 1);
    ReachStep(s, sent);
    var freed := sent.(cur := NoPacket, owner := Rounds(0));
    ReachStep(sent, freed);
    s := freed.(owner := Outside);
    ReachStep(freed, s);
  }

  // ---------- what the next connection of a slot is offered ----------

  /** clean_context leaves the queue: the next connection has accepted nothing, is offered what is queued, and is offered
      nothing exactly if the queue was empty. */
  lemma CleanOffersQueue(s: State, s': State)
    requires Inv(s) && Step(s, s') && s.owner.Cleaning? && !s'.owner.Cleaning?
    ensures s'.queue == s.queue && s'.cur.NoPacket? && s'.accepted == [] && s'.offered == Concat(s.queue)
    ensures s'.offered == [] <==> s.queue == []
  {
    if s.queue != [] {
      assert s.queue[0] != [];
    }
  }

  /** And that happens: a packet that was queued for one connection is offered to the next one of the slot ... */
  lemma LeftoverIsOffered(x: byte) returns (s: State)
    ensures Reachable(s) && s.owner.Outside? && s.producers == [Away] && s.num == 0 && s.cur.NoPacket?
    ensures s.accepted == [] && s.queue == [[x]] && s.offered == [x]
  {
    s := State([], NoPacket, 0, [Away], Outside, [], []);
    ReachStart(s);
    s := ReachEnqueue(s, [x]);
    assert s.queue == [[x]];
    var cleaning := s.(num := 0, owner := Cleaning);
    ReachStep(s, cleaning);
    assert Concat([[x]]) == [x] by {
      assert [[x]][1..] == [] && [x] + [] == [x];
    }
    s := cleaning.(owner := Outside, offered := [x], accepted := []);
    ReachStep(cleaning, s);
  }

  /** ... and is what send takes first from it, in place of the packet that was enqueued for it. */
  lemma LeftoverIsSentFirst(x: byte, y: byte) returns (s: State)
    ensures Reachable(s) && s.queue == [[y]] && s.offered == [x, y] && s.accepted == [x]
  {
    s := LeftoverIsOffered(x);
    s := ReachEnqueue(s, [y]);
    s := ReachWriting(s);
    var sent := s.(cur := Sending([x], 1), accepted := [x]);
    assert [] + [x][0..1] == [x];
    assert Accepts(s, sent, 1);
    ReachStep(s, sent);
    s := sent;
  }
}
