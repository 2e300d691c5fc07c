/** Logs: every kind of step keeps each log coherent with the logs of the leaders that made its entries. */
module ClusterLogs {
  import opened Common
  import opened RaftTypes
  import opened RaftStep
  import opened Cluster
  import opened ClusterInv

  // ---------------------------------------------------------------- leader logs only grow

  lemma CoherentGrows(es: seq<Entry>, logs: map<nat, seq<Entry>>, logs': map<nat, seq<Entry>>)
    requires Coherent(es, logs) && Grows(logs, logs')
    ensures Coherent(es, logs')
  {
    forall k ensures CoherentAt(es, k, logs') {
      assert CoherentAt(es, k, logs);
    }
  }

  /** Two coherent logs with an entry of the same index and term are equal up to it. */
  lemma CoherentMatch(a: seq<Entry>, b: seq<Entry>, logs: map<nat, seq<Entry>>, k: nat)
    requires Coherent(a, logs) && Coherent(b, logs)
    requires k < |a| && k < |b| && a[k].term == b[k].term
    ensures a[..k + 1] == b[..k + 1]
  {
    assert CoherentAt(a, k, logs) && CoherentAt(b, k, logs);
  }

  /** A piece taken from the front of a coherent log is coherent. */
  lemma CoherentPrefix(es: seq<Entry>, n: nat, logs: map<nat, seq<Entry>>)
    requires Coherent(es, logs) && n <= |es|
    ensures Coherent(es[..n], logs)
  {
    forall k: nat ensures CoherentAt(es[..n], k, logs) {
      assert CoherentAt(es, k, logs);
      if k < n { assert es[..n][..k + 1] == es[..k + 1]; }
    }
  }

  // ---------------------------------------------------------------- what a leader ships

  /** The message ships the tail of the sender's log, from some index through its end. */
  ghost predicate ShipsTail(n: Node, m: Message) {
    && m.Append?
    && m.from == n.id
    && m.term == n.term
    && |m.entries| >= 1
    && m.index + |m.entries| == |n.log.entries|
    && m.entries == n.log.entries[m.index..]
    && m.logTerm == TermOf(n.log.entries, m.index)
    && m.commit == n.log.committed
  }

  lemma SendAppendShipsTail(n: Node, to: Id, m: Message)
    requires to in n.prs && n.prs[to].next >= 1 && n.log.snapIndex == 0 && n.log.snapTerm == 0
    requires m in SendAppend(n, to)
    ensures ShipsTail(n, m) && m.to == to
  {
  }

  lemma {:induction false} BroadcastShipsTail(n: Node, to: seq<Id>, m: Message)
    requires n.WellFormed() && n.log.snapIndex == 0 && n.log.snapTerm == 0
    requires forall p :: p in to ==> p in n.prs
    requires m in BroadcastTo(n, to)
    ensures ShipsTail(n, m) && m.to in to && m.to != n.id
  {
    var p := to[|to| - 1];
    if m in BroadcastTo(n, to[..|to| - 1]) {
      BroadcastShipsTail(n, to[..|to| - 1], m);
    } else {
      SendAppendShipsTail(n, p, m);
    }
  }

  // ---------------------------------------------------------------- what a follower accepts

  ghost predicate AllLeaderLogsOk(h: History) {
    forall t {:trigger LeaderLogOk(h, t)} :: LeaderLogOk(h, t)
  }

  /** The message's previous entry being in the log, the two logs agree up to it. */
  lemma KeptAgrees(h: History, l: RaftLog, t: nat, index: nat, logTerm: nat)
    requires AllLeaderLogsOk(h) && t in h.logs && index <= |h.logs[t]|
    requires l.snapIndex == 0 && l.snapTerm == 0 && Coherent(l.entries, h.logs)
    requires logTerm == TermOf(h.logs[t], index)
    requires KeptPrefix(l, index, logTerm).Some?
    ensures KeptPrefix(l, index, logTerm).value == index <= |l.entries|
    ensures l.entries[..index] == h.logs[t][..index]
  {
    assert LeaderLogOk(h, t);
    if index > 0 && KeptPrefix(l, index, logTerm) != Some(0) {
      CoherentMatch(l.entries, h.logs[t], h.logs, index - 1);
    }
  }

  /** A log that ends in the leader's term is a prefix of the leader's log, so the shipment cannot conflict with it. */
  lemma PrefixHasNoConflict(leader: seq<Entry>, l: RaftLog, index: nat, es: seq<Entry>)
    requires |es| >= 1 && index + |es| <= |leader| && index <= |l.entries| <= |leader|
    requires es == leader[index..index + |es|] && l.entries == leader[..|l.entries|]
    ensures Install(l, index, es).entries == leader[..Max(|l.entries|, index + |es|)]
  {
    var dropped := l.entries[index..];
    assert forall i :: 0 <= i < |dropped| && i < |es| ==> dropped[i] == leader[index + i] == es[i];
    assert l.entries[..index] + es == leader[..index + |es|];
  }

  /** A log of older terms only cannot hold the whole shipment, so its end is replaced. */
  lemma OlderIsReplaced(leader: seq<Entry>, t: nat, l: RaftLog, index: nat, es: seq<Entry>)
    requires |es| >= 1 && index + |es| <= |leader| && index <= |l.entries|
    requires es == leader[index..index + |es|] && es[|es| - 1].term == t && l.entries[..index] == leader[..index]
    requires TermsUpTo(l.entries, t) && (l.entries != [] ==> l.entries[|l.entries| - 1].term != t)
    ensures Install(l, index, es).entries == leader[..index + |es|]
  {
    var dropped := l.entries[index..];
    if |dropped| > |es| {
      assert l.entries[index + |es| - 1].term <= l.entries[|l.entries| - 1].term < t;
      assert dropped[|es| - 1] == l.entries[index + |es| - 1];
      assert !SameSlot(dropped[|es| - 1], es[|es| - 1]);
    }
    assert l.entries[..index] + es == leader[..index + |es|];
  }

  /**
   The log after an accepted append is the leader's log up to an entry of the leader's term, even when the
   follower keeps entries past the ones shipped; and it is at least as recent as before.
   */
  lemma AcceptedIsLeaderPrefix(h: History, l: RaftLog, t: nat, index: nat, es: seq<Entry>)
    requires AllLeaderLogsOk(h) && t in h.logs
    requires |es| >= 1 && index + |es| <= |h.logs[t]| && index <= |l.entries|
    requires es == h.logs[t][index..index + |es|] && es[|es| - 1].term == t
    requires TermsUpTo(l.entries, t) && Coherent(l.entries, h.logs)
    requires l.entries[..index] == h.logs[t][..index]
    ensures var r := Install(l, index, es).entries;
            && index + |es| <= |r| <= |h.logs[t]|
            && r == h.logs[t][..|r|]
            && r[|r| - 1].term == t
            && AtLeast(RecencyOf(r), RecencyOf(l.entries))
  {
    var leader := h.logs[t];
    var last := |l.entries| - 1;
    if |l.entries| > 0 && l.entries[last].term == t {
      assert CoherentAt(l.entries, last, h.logs);
      assert l.entries == l.entries[..last + 1];
      PrefixHasNoConflict(leader, l, index, es);
    } else {
      OlderIsReplaced(leader, t, l, index, es);
    }
  }

  // ---------------------------------------------------------------- steps

  /** New appends in the history ship the tail of the stepping leader's new log. */
  ghost predicate OnlyShips(c: System, d: System, at: Id) {
    && at in d.nodes
    && forall m {:trigger OldOrTail(c, d, at, m)} :: OldOrTail(c, d, at, m)
  }

  ghost predicate OldOrTail(c: System, d: System, at: Id, m: Message)
    requires at in d.nodes
  {
    m in d.hist.sent && m.Append? ==>
      m in c.hist.sent || (d.nodes[at].role == Leader && ShipsTail(d.nodes[at], m))
  }

  /** A step that changes no log. */
  ghost predicate KeepsLogs(c: System, d: System, at: Id) {
    && d.nodes.Keys == c.nodes.Keys
    && d.hist.elected == c.hist.elected
    && d.hist.logs == c.hist.logs
    && (forall n :: n in c.nodes && n != at ==> d.nodes[n] == c.nodes[n])
    && at in c.nodes
    && d.nodes[at].id == at
    && d.nodes[at].log.entries == c.nodes[at].log.entries
    && d.nodes[at].term >= c.nodes[at].term
    && (d.nodes[at].role == Leader ==> c.nodes[at].role == Leader && d.nodes[at].term == c.nodes[at].term)
  }

  lemma TailIsShipment(d: System, at: Id, m: Message)
    requires at in d.nodes && d.nodes[at].id == at && d.nodes[at].role == Leader && ShipsTail(d.nodes[at], m)
    requires LeaderOk(d, at) && NodeLogOk(d, at) && AllLeaderLogsOk(d.hist)
    ensures ShipmentOk(d.hist, m)
  {
    assert LeaderLogOk(d.hist, m.term);
  }

  lemma LogQuiet(c: System, d: System, at: Id)
    requires VoteInv(c) && LogInv(c) && KeepsLogs(c, d, at) && OnlyShips(c, d, at)
    ensures LogInv(d)
  {
    forall t ensures LeaderLogOk(d.hist, t) {
      assert LeaderLogOk(c.hist, t);
    }
    forall n ensures NodeLogOk(d, n) {
      assert NodeLogOk(c, n);
    }
    assert LeaderOk(c, at);
    forall m ensures ShipmentOk(d.hist, m) {
      assert ShipmentOk(c.hist, m) && OldOrTail(c, d, at, m);
      if m in d.hist.sent && m !in c.hist.sent && m.Append? { TailIsShipment(d, at, m); }
    }
  }

  /** The leader of a term, new or not, has appended entries of its term. */
  ghost predicate Extends(c: System, d: System, at: Id) {
    && d.nodes.Keys == c.nodes.Keys
    && (forall n :: n in c.nodes && n != at ==> d.nodes[n] == c.nodes[n])
    && at in c.nodes
    && (var n, n' := c.nodes[at], d.nodes[at];
        && n'.id == at
        && n'.role == Leader
        && n'.term == n.term >= 1
        && n.log.entries <= n'.log.entries
        && NumberedFrom(n'.log.entries, 1)
        && (forall k :: |n.log.entries| <= k < |n'.log.entries| ==> n'.log.entries[k].term == n.term)
        && (n.role == Leader || (n.term !in c.hist.logs && |n'.log.entries| > |n.log.entries|))
        && d.hist.logs == c.hist.logs[n.term := n'.log.entries]
        && d.hist.elected == c.hist.elected[n.term := at])
  }

  lemma ExtendedLogOk(c: System, d: System, at: Id)
    requires LogInv(c) && Extends(c, d, at)
    ensures Grows(c.hist.logs, d.hist.logs)
    ensures LeaderLogOk(d.hist, d.nodes[at].term) && NodeLogOk(d, at)
  {
    var t, es := d.nodes[at].term, d.nodes[at].log.entries;
    assert NodeLogOk(c, at) && LeaderLogOk(c.hist, t);
    forall k: nat ensures CoherentAt(es, k, d.hist.logs) {
      assert CoherentAt(c.nodes[at].log.entries, k, c.hist.logs);
    }
  }

  lemma ExtendNode(c: System, d: System, at: Id, n: Id)
    requires LogInv(c) && Extends(c, d, at) && LeaderOk(c, at) && LeaderOk(c, n)
    requires Grows(c.hist.logs, d.hist.logs) && NodeLogOk(d, at)
    ensures NodeLogOk(d, n)
  {
    assert NodeLogOk(c, n);
    if n in c.nodes { CoherentGrows(c.nodes[n].log.entries, c.hist.logs, d.hist.logs); }
  }

  lemma LogExtend(c: System, d: System, at: Id)
    requires VoteInv(c) && LogInv(c) && Extends(c, d, at) && OnlyShips(c, d, at) && LeaderOk(d, at)
    ensures LogInv(d)
    ensures Grows(c.hist.logs, d.hist.logs)
  {
    ExtendedLogOk(c, d, at);
    forall t ensures LeaderLogOk(d.hist, t) {
      assert LeaderLogOk(c.hist, t);
      if t in c.hist.logs { CoherentGrows(c.hist.logs[t], c.hist.logs, d.hist.logs); }
    }
    assert LeaderOk(c, at);
    forall n ensures NodeLogOk(d, n) {
      assert LeaderOk(c, n);
      ExtendNode(c, d, at, n);
    }
    forall m ensures ShipmentOk(d.hist, m) {
      assert ShipmentOk(c.hist, m) && OldOrTail(c, d, at, m);
      if m in d.hist.sent && m !in c.hist.sent && m.Append? { TailIsShipment(d, at, m); }
    }
  }

  /** A follower has accepted an append: its log is now a piece of the leader's. */
  ghost predicate Adopts(c: System, d: System, at: Id, t: nat) {
    && d.nodes.Keys == c.nodes.Keys
    && d.hist.elected == c.hist.elected
    && d.hist.logs == c.hist.logs
    && (forall n :: n in c.nodes && n != at ==> d.nodes[n] == c.nodes[n])
    && at in c.nodes
    && t in c.hist.logs
    && (var es := d.nodes[at].log.entries;
        && d.nodes[at].term == t
        && d.nodes[at].role == Follower
        && 1 <= |es| <= |c.hist.logs[t]|
        && es == c.hist.logs[t][..|es|]
        && es[|es| - 1].term == t)
  }

  lemma LogAccept(c: System, d: System, at: Id, t: nat)
    requires LogInv(c) && Adopts(c, d, at, t)
    requires forall m :: m in d.hist.sent && m.Append? ==> m in c.hist.sent
    ensures LogInv(d)
  {
    forall t ensures LeaderLogOk(d.hist, t) {
      assert LeaderLogOk(c.hist, t);
    }
    assert LeaderLogOk(c.hist, t);
    CoherentPrefix(c.hist.logs[t], |d.nodes[at].log.entries|, c.hist.logs);
    forall n ensures NodeLogOk(d, n) {
      assert NodeLogOk(c, n);
    }
    forall m ensures ShipmentOk(d.hist, m) {
      assert ShipmentOk(c.hist, m);
    }
  }
}
