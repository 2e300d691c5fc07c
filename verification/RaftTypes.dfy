/** The values a Raft node works on: entries, messages, the in-memory log and the node itself. */
module RaftTypes {
  import opened Common

  /** Node identities; `NOBODY` stands for "no leader" and "no vote". */
  type Id = nat

  const NOBODY: Id := 0

  const CONF_CHANGE: nat := 1

  datatype Entry = Entry(entryType: nat, term: nat, index: nat, data: seq<byte>)

  datatype Role = Follower | Candidate | Leader

  datatype Progress = Progress(matched: nat, next: nat)

  datatype Message =
    | RequestVote(from: Id, to: Id, term: nat, logTerm: nat, index: nat)
    | VoteResponse(from: Id, to: Id, term: nat, reject: bool)
    | Append(from: Id, to: Id, term: nat, logTerm: nat, index: nat, commit: nat, entries: seq<Entry>)
      // an append message whose CommitUse flag is set: it only carries a commit index
    | CommitUpdate(from: Id, to: Id, term: nat, commit: nat)
    | AppendResponse(from: Id, to: Id, term: nat, reject: bool, index: nat, conflictTerm: nat)

  /** Entries numbered one by one, the first one at index `first`. */
  ghost predicate NumberedFrom(es: seq<Entry>, first: nat) {
    forall k :: 0 <= k < |es| ==> es[k].index == first + k
  }

  /** The in-memory log: everything after the last snapshot. */
  datatype RaftLog = RaftLog(
    snapIndex: nat,
    snapTerm: nat,
    entries: seq<Entry>,
    committed: nat,
    applied: nat,
    stabled: nat)
  {
    ghost predicate Numbered() {
      NumberedFrom(entries, snapIndex + 1)
    }

    function LastIndex(): nat {
      snapIndex + |entries|
    }

    /** The term of index `i`; every index at or below the snapshot reports the snapshot's term. */
    function TermAt(i: nat): nat
      requires i <= LastIndex()
    {
      if i <= snapIndex then snapTerm else entries[i - snapIndex - 1].term
    }

    function LastTerm(): nat {
      TermAt(LastIndex())
    }
  }

  datatype Node = Node(
    id: Id,
    peers: seq<Id>,
    term: nat,
    vote: Id,
    voteTotal: nat,
    voteReceived: nat,
    role: Role,
    lead: Id,
    prs: map<Id, Progress>,
    log: RaftLog,
    pendingConf: nat)
  {
    ghost predicate WellFormed() {
      && id in prs
      && prs.Keys == Elements(peers)
      && (forall p :: p in prs ==> prs[p].next >= 1)
      && log.Numbered()
    }
  }

  /** A handler either finishes with a new node state and messages to send, or panics. */
  datatype Outcome = Panicked | Stepped(node: Node, out: seq<Message>)
}
