# TinyKV, modelled and proved in Dafny

This project models the parts of TinyKV where most can go wrong and proves what they are there for. Every file is
plain Dafny 4.11; `dafny verify dfyconfig.toml` checks all of it.

**The Raft cluster.** `RaftTypes` and `RaftStep` give each handler of `raft/raft.go` as a function from a node state
to a node state and messages, and `RaftMeaning` says what each of them does in terms of its inputs: which entries a
proposal adds, who gets a vote, what an append teaches, when an answer commits and who is told. `RaftNode` is the node
as the source writes it, an object whose methods update fields in
place and loop over peers and entries; each method is proved to compute its function. `Cluster` puts nodes and a bag
of messages together. The network may drop, delay and reorder every message and duplicate every message that is not
part of an election; a heartbeat of whoever has led its term may arrive at any moment, unless it is of the receiver's
own term and the receiver has voted. A history (messages sent, campaigns, elections, each term's leader log,
acknowledgements) is recorded beside the state and never read by a handler. `ClusterInv` states the invariants;
`ClusterVotes`, `ClusterLogs`, `ClusterAcks` and `ClusterSteps` show that every step keeps them; `ClusterCommit` and
`ClusterSafety` add what is committed; `ClusterTheorems` states the results for whole runs. The argument that carries
most of them: every append ships the leader's log through its end, so a log that accepts one ends in an entry of the
leader's term even when it keeps entries past the ones shipped. `Heartbeat` shows why not every heartbeat is let in,
and `RepeatedLeadership` builds, event by event, a run of the cluster that shows why the theorems on commitment ask
in which term the peers that a leader counts have answered it.

**One node's log.** `LogLife` is the cycle of messages, Ready, saving, cutting and Advance as a state machine that
starts from whatever a storage holds and any applied index between its cut and its commit index, `LogLifeTheorems` its
results over runs, `RawNode` the wrapper object, `ReceiverRules` the receiver rules of the Raft paper with the proof
that installing a shipment in one piece follows them. `LifeInCluster` closes the gap between the two machines: what
the log's life assumes about messages holds in every run of the cluster.

**Storages.** `StableLog` is one abstract log that can be cut in front and overwritten at the back. `MemoryStorage`
and `PeerStorage` both refine it, the second one over encoded entries under ordered keys (`Keys`, `EntryCodec`) in an
engine that all regions share. Saving a Ready in `PeerStorage` is proved to be the saving step of `LogLife`.

**Codecs.** `Bytes` has byte order and big-endian numbers, `BytesCodec` the memcomparable encoding, `MvccKey` keys
with timestamps, seeking and split keys, `EntryCodec` varints and log entries. `RowCodec`, `RowRoundTrip` and
`RowCoder` are the row format, the exact condition under which a row decodes, and the encoder and decoder objects.

**Structures.** `Latches` (threads as steps), `TopN` (the heap and the final sort), `RegionIndex` (overlapping
regions), `SnapStream` (files cut into chunks and put together again).

Where the code does not meet the natural claim, the code is kept, an input that fails is given, and the condition
under which it holds is proved:

- a row encoder loses rows of exactly 65535 data bytes with small column ids, and rows of 2^32 bytes or more: if and
  only if (`RowRoundTrip.FreshRoundTrip`, `RowRoundTrip.LostRow`);
- an encoder used again keeps the 32-bit offsets of the last row that was large on its own account, and those spoil
  later rows: `RowRoundTrip.ReusedRoundTrip` is the exact condition for every row and every left-over, and
  `RowRoundTrip.SecondRowIsHarmed` a row of one byte that cuts the next one short;
- a heartbeat lets a follower vote twice in a term exactly when it is of that same term, and a run in which every
  heartbeat is let in elects two leaders in one term (`Heartbeat.SecondVoteIff`,
  `Heartbeat.HeartbeatsBreakElectionSafety`); with the heartbeats that leave every vote standing Election Safety and
  all other theorems hold (`ClusterSteps.StepBeat`);
- becoming leader resets no match index and an answer's term is not compared, so a node that leads again can commit an
  entry without a majority, and another leader then commits another one (`RepeatedLeadership.SafetyNeedsAnswers`).
  The peers that a leader counts are the peers it tells to commit. Quorum-backed commit, Leader Completeness, State
  Machine Safety and what follows from them are proved for runs in which whoever a leader tells to commit an index has
  given it an answer of its own term that reaches the index. Left-over match indexes and late answers are otherwise
  free. A leader could check this when it counts, from the answers it has been given. It holds whenever no match index
  left over when the leadership began reaches an entry of the term, and every answer since is of the term or is not
  heeded, because it reports nothing new or an uncommitted entry of an earlier term
  (`ClusterTheorems.CleanTellsAnswered`); a node's first leadership is always like that
  (`ClusterTheorems.FirstLeadershipIsClean`). Without the first half a leadership begins by counting for its own
  entries peers that have not acknowledged them, and without the second an answer makes it so: both if and only if
  (`ClusterTheorems.BeginsCurrentIff`, `ClusterTheorems.AnswerCurrentIff`). For the invariant on commitment the
  condition is exact once "has answered" reads "has acknowledged in the term" (`ClusterTheorems.AnswerCommitIff` for
  one event, `ClusterTheorems.RunCommitIff` for runs). For the absence of two different commits it is one-way:
  `RepeatedLeadership.LateAnswerCanBeHarmless` is a run that breaks it and in which all commits agree. That an entry
  which a majority has acknowledged stays is proved without any condition
  (`ClusterTheorems.AcknowledgedByMajorityStays`);
- an answer that claims more than the leader's log and its record of the sender hold makes the leader panic, and no
  other message in flight makes anybody panic: if and only if (`ClusterTheorems.RunPanicsIff`,
  `RepeatedLeadership.LateAnswerPanics`);
- a wait group made for no keys is never counted down (`Latches.CountsWhileHeld`).

Wait groups, message bags, the engine and the B-tree are values; the clock, random timeouts and the order of events
are free choices of the environment.

## Model

| member | source | states |
|---|---|---|
| `ClusterTheorems.ElectionSafety` | raft/raft.go:286-416 | over a whole run, two nodes that lead the same term at any two moments are one node |
| `ClusterTheorems.LeaderAppendOnly` | raft/raft.go:704-726 | while a node leads a term its log is only extended |
| `ClusterTheorems.LogMatching` | raft/raft.go:760-841 | two logs of a run that share an index and term are identical through that index |
| `ClusterTheorems.ShipmentMatching` | raft/raft.go:664-702 | an append in flight and any log that share an entry's index and term agree on the shipment up to it and on the entry before it |
| `ClusterTheorems.RecencyNeverDecreases` | raft/raft.go:299-308 | a node's (last term, length), which votes compare, never goes down along a run |
| `ClusterTheorems.RecordedLogWasHeld` | raft/raft.go:391-416 | every leader log in the history was the log of that term's leader at some moment of the run |
| `ClusterTheorems.RecordedAckWasMade` | raft/raft.go:812-843 | every acknowledgement in the history was made by a node whose log then was that prefix of the leader's log |
| `ClusterTheorems.AcknowledgementSound` | raft/raft.go:812-843 | a positive append response with index i in term T means its sender had the log of the leader of T through i when it answered, although it reports its own last index |
| `ClusterTheorems.QuorumBackedCommit` | raft/raft.go:541-597 | each advance of a leader's commit index is to an entry of its own term that a majority, the leader included, held in that term, if those it then tells have answered it in the term; how other leaders count does not matter |
| `ClusterTheorems.CleanTellsAnswered` | raft/raft.go:541-597 | if no match index left over when the leadership began reaches an entry of its term and every answer since is of the term or not heeded, whoever the leader tells to commit has answered it in its term for that index |
| `ClusterTheorems.TellsAnsweredMeansAcked` | raft/raft.go:541-597 | whoever has answered a leader in its term for an index has acknowledged the index in that term |
| `ClusterTheorems.BeginsCurrentIff` | raft/raft.go:391-416 | when a step of a run makes a node leader, every peer whose match index reaches an entry of the new term has acknowledged it in that term if and only if there is no such peer |
| `ClusterTheorems.AnswerCurrentIff` | raft/raft.go:541-569 | a positive answer keeps it so if and only if it raises no match index, or reports an entry of an earlier term, or its sender has acknowledged in the term what it reports of the leader's log |
| `ClusterTheorems.AnswerCommitIff` | raft/raft.go:541-597 | a positive answer to a leader keeps commit indexes and commit messages backed by majorities if and only if whoever it makes the leader tell has acknowledged the index in the leader's term |
| `ClusterTheorems.RunCommitIff` | raft/raft.go:541-597 | through any state of a run commit indexes and messages are backed by majorities if and only if every answer so far made a leader tell only peers that had acknowledged in its term |
| `ClusterTheorems.FirstLeadershipIsClean` | raft/raft.go:391-416 | up to any moment of a run, the only leadership a node has had is clean and every answer under way to it is of its term |
| `ClusterTheorems.LeaderCompleteness` | raft/raft.go:299-308 | what any node has committed, leaders having told until then only peers that had answered them in their terms, is in the log of every leader of that or a later term, however those count |
| `ClusterTheorems.StateMachineSafety` | raft/raft.go:849-859 | under that condition up to the later of two moments, two nodes that committed an index have the same entries through it |
| `ClusterTheorems.CommittedStays` | raft/raft.go:760-859 | under that condition a commit index never goes back and no committed entry is ever replaced |
| `ClusterTheorems.RunPanicsIff` | raft/raft.go:541-597 | under that condition a message in flight makes its receiver panic if and only if it is an answer to a leader for an index beyond both the leader's log and the match index on record; an answer of the leader's own term never is |
| `ClusterTheorems.AcknowledgedByMajorityStays` | raft/raft.go:299-308 | an entry of a term that a majority acknowledged in that term is, with all before it, in the log of every leader of that or a later term, with no condition on repeated leaderships |
| `ClusterCommit.WinnerIsRecent` | raft/raft.go:340-352 | whoever won a term after a majority acknowledged an entry campaigned with a log at least as recent as that entry, by quorum intersection |
| `ClusterCommit.CommitHasQuorum` | raft/raft.go:570-597 | a leader commits only what a majority has acknowledged in its term, if whoever it then tells has |
| `ClusterCommit.StepKeepsProgress` | raft/raft.go:541-569 | every event, with no condition on leaderships, keeps each match index an acknowledgement made to the node in some term it led |
| `ClusterSteps.StepKeepsInv` | raft/raft.go:286-845 | every step of the cluster keeps the invariants on mail, votes, logs and acknowledgements and lets the history only grow |
| `ClusterSteps.StepBeat` | raft/raft.go:866-884 | a heartbeat that takes no vote of its own term away keeps all invariants, one leader per term among them |
| `ClusterSteps.AcceptedLog` | raft/raft.go:760-841 | a log that accepts an append becomes a prefix of the leader's log that ends in an entry of the leader's term |
| `ClusterLogs.AcceptedIsLeaderPrefix` | raft/raft.go:812-841 | so does installing a shipment in one piece, conflict or not, and recency does not fall |
| `ClusterVotes.VoteElect` | raft/raft.go:340-352 | the step that makes a leader keeps one leader per term, votes being counted without their senders |
| `ClusterSafety.StepKeepsCommit` | raft/raft.go:541-597 | every event keeps commit indexes backed by majorities, a positive answer to a leader if whoever it makes the leader tell has acknowledged the index in its term |
| `RaftStep.ProposeFacts` | raft/raft.go:704-726 | a proposal only appends entries of the current term, keeps numbering and moves only the leader's own progress |
| `RaftStep.FirstConflict` | raft/raft.go:821-828 | the result is the first position at which the runs differ in index or term, and they agree before it |
| `RaftMeaning.ProposeMeans` | raft/raft.go:704-726 | a proposal appends exactly the entries let in, in order, with their type and data, the leader's term and the next indexes; of membership changes only the first is let in and only if none is pending; the leader's own progress reaches the end of the log and a cluster of one commits it |
| `RaftMeaning.ProposesAll` | raft/raft.go:704-726 | without membership changes every proposed entry arrives, with its type and data |
| `RaftMeaning.HandleProposeMeans` | raft/raft.go:470-472 | the leader then sends every other peer, and nobody else, the log from that peer's next index on |
| `RaftMeaning.SendAppendMeans` | raft/raft.go:664-702 | for every next index: one append goes out exactly when the index is in the log, with the entries from there through the last, the term of the entry before and the leader's commit index |
| `RaftMeaning.BroadcastMeans` | raft/raft.go:626-633 | the messages sent are exactly those appends of all other peers |
| `RaftMeaning.CampaignMeans` | raft/raft.go:314-388 | a candidacy is a new term with a vote for itself, and a request with its last index and term to exactly every other peer |
| `RaftMeaning.LoneCampaignMeans` | raft/raft.go:374-416 | in a cluster of one the candidate leads at once, with one empty entry appended and committed and nobody asked |
| `RaftMeaning.VoteRequestMeans` | raft/raft.go:286-312 | a vote is granted if and only if it may still go to the candidate in that term and the candidate's log is at least as recent; what the node then is and answers |
| `RaftMeaning.VoteResponseMeans` | raft/raft.go:340-358 | a candidate leads if and only if this vote gives it more than half, and gives up if and only if the term is later or the count is full without that; nobody else minds |
| `RaftMeaning.WinningMeans` | raft/raft.go:391-416 | the new leader has appended one empty entry of its term and sends every other peer what it lacks |
| `RaftMeaning.AppendMeans` | raft/raft.go:737-859 | a stale append changes nothing; any other makes its sender the leader followed and is taken if and only if the log has the entry before the shipped ones; the answer reports the last index |
| `RaftMeaning.AppendLearns` | raft/raft.go:849-859 | after an append that is taken an index is committed if and only if it was before or is at most the leader's commit index and the end of the shipment |
| `RaftMeaning.CommitUpdateMeans` | raft/raft.go:730-736 | a commit index sent on its own is taken if and only if it lies in the log, and then commits everything up to it |
| `RaftMeaning.AnswerMeans` | raft/raft.go:541-597 | for every cluster size: the leader commits what a positive answer reports if and only if it is new, of the leader's term and reached by a majority of the leader, the sender and the peers on record; the sender's progress moves there; a panic if and only if it lies beyond the log |
| `RaftMeaning.AnswerTells` | raft/raft.go:541-597 | then exactly the peers counted are told, a peer that was behind is told alone, and otherwise nobody is |
| `RaftMeaning.AnswerTellsOnce` | raft/raft.go:541-597 | nobody is told twice and nothing else is sent |
| `RaftMeaning.RefusalAnswerMeans` | raft/raft.go:598-622 | a refusal moves only the sender's next index: behind the last entry of the term it names, or behind the index it names; the leader ships from there |
| `RaftMeaning.AfterLastOfTermMeans` | raft/raft.go:600-612 | where terms do not fall, the scan gives the index after the last entry of the term, and nothing if there is none |
| `RaftMeaning.BeforeFirstOfTermMeans` | raft/raft.go:803-809 | the scan gives the index before the first entry of the term, and 0 if there is none |
| `RaftMeaning.RefusalMeans` | raft/raft.go:786-809 | what a refusal reports; its term is that of the entry asked for if and only if the index is beyond twice the cut or the terms happen to agree |
| `RaftNode.LogStore.RealIdx` | raft/log.go:93-102 | the position of an index among the retained entries, or a panic beyond the last one |
| `RaftNode.LogStore.Term` | raft/log.go:168-176 | the term of every index up to the last, the snapshot's at or below it, a panic beyond |
| `RaftNode.LogStore.LastIndex` | raft/log.go:159-165 | read from the last entry, it is the snapshot index plus the number of entries |
| `RaftNode.LogStore.UnstableEntries` | raft/log.go:128-136 | the loop returns exactly the retained entries behind the stable mark |
| `RaftNode.LogStore.NextEnts` | raft/log.go:147-156 | the loop returns exactly the entries between the apply and the commit mark |
| `RaftNode.LogStore.MaybeCompact` | raft/log.go:107-119 | follows the storage's cut, keeps numbering, and panics exactly when the cut reaches the last index |
| `RaftNode.LogStore.HasUnstableEnts` | raft/log.go:121-125 | for a stable mark within the log, true exactly when there are unstable entries to hand out or the mark lies below the snapshot |
| `RaftNode.LogStore.HasNextEnts` | raft/log.go:140-144 | whether the next entries are not empty |
| `RaftNode.Raft.HandleHeartbeat` | raft/raft.go:866-884 | a stale heartbeat changes nothing and is refused with the node's term; any other makes its sender the leader followed and reports the last index |
| `RaftMeaning.HeartbeatMeans` | raft/raft.go:866-884 | a heartbeat of an earlier term changes nothing; any other is followed into its term and takes the vote away |
| `RaftNode.Raft.HandleMsgPropose` | raft/raft.go:704-726 | the in-place loop stamps and appends what `RaftMeaning.ProposeMeans` says and keeps the node well formed |
| `RaftNode.Raft.SendAppend` | raft/raft.go:664-702 | the loop ships the log from the peer's next index through the last one |
| `RaftNode.Raft.BroadCastAE` | raft/raft.go:626-633 | queues the appends of all other peers in peer order |
| `RaftNode.Raft.BecomeLeader` | raft/raft.go:391-416 | appends the no-op of the term and ships it |
| `RaftNode.Raft.RequestVotes` | raft/raft.go:314-338 | queues a vote request with the last index and term for every other peer |
| `RaftNode.Raft.BecomeCandidate` | raft/raft.go:374-388 | a new term, a vote for itself, leadership at once in a cluster of one |
| `RaftNode.Raft.Hup` | raft/raft.go:429-431 | an election timeout does what the cluster's timeouts do: a candidacy with its requests, or leadership at once in a cluster of one |
| `RaftNode.Raft.HandleVoteRequest` | raft/raft.go:286-312 | grants and refuses exactly as `RaftMeaning.VoteRequestMeans` says, with the reply's term |
| `RaftNode.Raft.HandleVoteResponse` | raft/raft.go:340-358 | counts, wins, gives up or steps down as specified |
| `RaftNode.Raft.HandleAppendEntries` | raft/raft.go:729-859 | the whole receiver, in place: cut, hint, conflict scan, install, and the commit index as `RaftMeaning.AppendLearns` says; panics exactly when specified |
| `RaftNode.Raft.HandleCommitUse` | raft/raft.go:730-736 | takes a commit index sent on its own, or panics beyond the log |
| `RaftNode.Raft.FindConflict` | raft/raft.go:821-828 | the scan finds the first conflict |
| `RaftNode.Raft.ConflictHint` | raft/raft.go:787-810 | the index and term put in a refusal |
| `RaftNode.Raft.SearchConflict` | raft/raft.go:600-612 | the index after the last entry of the conflicting term |
| `RaftNode.Raft.HandleRefusal` | raft/raft.go:598-622 | moves the next index as specified and ships again |
| `RaftNode.Raft.CountReached` | raft/raft.go:574-586 | the peers whose match index reaches the acknowledged one |
| `RaftNode.Raft.HandleMsgAppendResponse` | raft/raft.go:541-622 | refines the answered append of `RaftMeaning.AnswerMeans`, `RaftMeaning.AnswerTells` and `RaftMeaning.RefusalAnswerMeans`, commit messages included |
| `RaftNode.Raft.Step` | raft/raft.go:420-488 | dispatches by role and message; panics exactly when the specification does |
| `Heartbeat.SecondVoteIff` | raft/raft.go:866-884 | with a heartbeat between two vote requests of a term the second is granted exactly when the heartbeat is of that term |
| `Heartbeat.HeartbeatsBreakElectionSafety` | raft/raft.go:866-884 | a run of five nodes in which every heartbeat of a leader is let in ends with two leaders of term 1 |
| `RepeatedLeadership.SafetyNeedsAnswers` | raft/raft.go:541-597 | a run of five nodes ends with two nodes that have committed different entries at index 2, one of them leading a later term than the other's |
| `RepeatedLeadership.LateAnswerCanBeHarmless` | raft/raft.go:541-597 | a run in which a leader commits on an answer of an earlier term and tells a peer that has given it none of its own, while a majority holds the entry and no two commits disagree |
| `RepeatedLeadership.LateAnswerPanics` | raft/raft.go:541-569 | a run that ends with an answer of term 1 under way to a leader of term 3 whose log has become shorter, which panics when it gets it |
| `RepeatedLeadership.CommittedWithoutMajority` | raft/raft.go:541-597 | in a run whose last event is such an answer, the leader of term 3 commits an entry of its term that two of the five nodes hold |
| `RepeatedLeadership.Elects` | raft/raft.go:286-416 | five events by which a node of five times out and wins with the votes of two others whose logs are not more recent, from any state of a run |
| `ReceiverRules.InstallFollowsRules` | raft/raft.go:760-841 | installing a shipment leaves the same indexes and terms as receiver rules 3 and 4 applied entry by entry |
| `ReceiverRules.ReceiveMeans` | raft/raft.go:812-841 | the rules keep the log up to the first conflict, and all of it if there is none |
| `ReceiverRules.DelayedShipmentKeepsSuffix` | raft/raft.go:829-841 | a delayed shipment that the log already holds changes nothing, whatever the log holds beyond |
| `ReceiverRules.StableMarkIsExact` | raft/raft.go:812-841 | the stable mark covers no changed entry and is lowered no further than the first change |
| `LogLife.HandleAppendTakesShipment` | raft/raft.go:760-859 | what the life of the log calls taking a shipment is what the handler does to the log |
| `LogLife.NewLogMeans` | raft/log.go:62-91 | a node starts with the entries and terms its storage holds, all of them stable, and hands out exactly those between its applied and its commit index |
| `LogLife.ShipmentOverlays` | raft/raft.go:760-859 | a shipment that respects what is committed leaves everything stable and committed in place and never panics |
| `LogLife.SaveKeeps` | kv/raftstore/peer_storage.go:376-403 | saving a Ready leaves no gap and brings storage and memory to the same log |
| `LogLife.AdvanceKeeps` | raft/rawnode.go:217-226 | after Advance memory and storage are the same log, all of it stable and everything committed applied |
| `LogLifeTheorems.MarksOrdered` | raft/log.go:24-58 | snapshot, applied, committed and last index, and the stable mark, stay ordered in every run |
| `LogLifeTheorems.CommitNeverDecreases` | raft/raft.go:849-859 | the commit index never goes down in any run, snapshots included |
| `LogLifeTheorems.NeverPanics` | raft/log.go:93-119 | within the environment's promises no event of any run panics |
| `LogLifeTheorems.StableMeansSaved` | raft/rawnode.go:160-226 | every retained index at or below the stable mark has the same index and term in memory and storage |
| `LogLifeTheorems.WaitingSnapshotIsBase` | raft/raft.go:903-920 | a snapshot not yet saved is the base of the log and nothing behind it counts as stable |
| `LogLifeTheorems.AdvanceAgrees` | raft/rawnode.go:217-226 | after every Advance of a run the two logs agree completely |
| `LogLifeTheorems.DeliveredInOrder` | raft/rawnode.go:160-226 | from the applied index a node starts with, entries are handed out with growing indexes, none twice, none missing but those a handed-out snapshot covers, none uncommitted |
| `LogLifeTheorems.DeliveredStays` | raft/rawnode.go:160-226 | an entry handed out has the index and term that the log has there in that and every later state that retains the index, and is that very entry if shipments carry committed entries unchanged |
| `LogLifeTheorems.AllDelivered` | raft/rawnode.go:217-226 | after every Advance everything committed has been handed out |
| `LifeInCluster.ShipmentsFit` | raft/raft.go:760-841 | in runs where leaders tell only peers that have answered them, an append in flight that its receiver takes conflicts with nothing committed there and carries the committed entries unchanged |
| `LifeInCluster.UpdatesFit` | raft/raft.go:730-735 | in such runs a commit index in flight lies within its receiver's log |
| `LifeInCluster.CommitUpdateIsTold` | raft/raft.go:730-736 | handling a commit message is the event of the log's life that is told a commit index, panic for panic |
| `LifeInCluster.AnswerIsCounted` | raft/raft.go:541-597 | an answer that finds a majority is the event in which the log's life counts, and any other leaves the log alone |
| `LifeInCluster.ProposalIsProposed` | raft/raft.go:704-726 | a proposal is the event in which the log's life appends what is let in |
| `RawNodes.RawNode.Ready` | raft/rawnode.go:160-191 | hands out the messages and the snapshot that are pending, the term, vote and commit index if one of them changed since the last time, leader and role likewise, and leaves only the log's part to repeat |
| `RawNodes.RawNode.HasReady` | raft/rawnode.go:194-213 | answers true exactly when Ready would hand out something |
| `RawNodes.RawNode.Advance` | raft/rawnode.go:217-226 | moves the marks and follows the storage's cut, or panics exactly when that must |
| `RawNodes.RawNode.HandleSnapshot` | raft/raft.go:903-921 | a snapshot behind the last index is ignored, another replaces the log and waits |
| `StableLogs.WriteFits` | raft/storage.go:241-273 | a write fails exactly when it would leave a gap |
| `StableLogs.WriteNumbered` | raft/storage.go:241-273 | a written log is numbered and ends with the last entry written, unless all were cut off |
| `StableLogs.WriteHolds` | raft/storage.go:241-273 | every written entry that is not cut off is found at its index |
| `StableLogs.WriteKeeps` | raft/storage.go:241-273 | nothing before the first written entry changes |
| `StableLogs.CutKeepsAnswers` | raft/storage.go:218-236 | a cut changes no answer about what remains |
| `StableLogs.SliceMeans` | raft/storage.go:110-127 | a slice is found if and only if its indexes lie behind the cut and in the log, and has exactly their entries |
| `StableLogs.TermMeans` | raft/storage.go:130-141 | a term is found if and only if the index lies from the cut through the last one: the entry's, or the one noted for the cut |
| `MemoryStorages.MemoryStorage.Entries` | raft/storage.go:110-127 | exactly the slice of the abstract log, an error for what was cut off, a panic beyond the end |
| `MemoryStorages.MemoryStorage.Term` | raft/storage.go:130-141 | the term of the abstract log at the index, or the right error |
| `MemoryStorages.MemoryStorage.Append` | raft/storage.go:241-273 | refines writing into the abstract log; panics exactly on a gap |
| `MemoryStorages.MemoryStorage.Compact` | raft/storage.go:218-236 | refines cutting the abstract log; an error at or before the cut, a panic beyond the end |
| `MemoryStorages.MemoryStorage.ApplySnapshot` | raft/storage.go:174-188 | replaces the log unless a snapshot as new is there |
| `Keys.LogKeysOrdered` | kv/raftstore/meta/keys.go:55-75 | log keys are ordered by region and then index |
| `Keys.StateKeyOrdered` | kv/raftstore/meta/keys.go:77-79 | a region's state key lies behind its log keys and before later regions |
| `Keys.RaftLogIndexRoundTrip` | kv/raftstore/meta/keys.go:118-123 | the index is read back from its key |
| `Keys.LogRange` | kv/raftstore/peer_storage.go:97-106 | between two log keys of a region lie only log keys of that region |
| `Keys.Seek` | kv/raftstore/peer_storage.go:101 | the least stored key at or above a key, or none |
| `PeerStorages.PeerStorage.CheckRange` | kv/raftstore/peer_storage.go:209-219 | which ranges are compacted, out of bounds or available |
| `PeerStorages.PeerStorage.Entries` | kv/raftstore/peer_storage.go:89-127 | the scan returns exactly the abstract slice, whatever else the engine holds |
| `PeerStorages.PeerStorage.Term` | kv/raftstore/peer_storage.go:129-144 | the term of the abstract log, the shortcut for equal end terms included |
| `PeerStorages.PeerStorage.Append` | kv/raftstore/peer_storage.go:309-325 | queues every entry under its key and moves the last index and term |
| `PeerStorages.PeerStorage.ClearMeta` | kv/raftstore/peer_storage.go:270-305 | never fails; of all keys exactly the region's state key and its log keys through the last index are gone, so log keys above it stay |
| `PeerStorages.PeerStorage.ApplySnapshot` | kv/raftstore/peer_storage.go:328-351 | with a snapshot exactly those keys are gone and the marks are the snapshot's; without one nothing happens |
| `PeerStorages.PeerStorage.SaveReadyState` | kv/raftstore/peer_storage.go:376-403 | the stored log becomes the saved one of the log's life, a state given with it is stored, no other region's key changes, and with a snapshot no key of the old log stays but those written again |
| `PeerStorages.PeerStorage.CompactLog` | kv/raftstore/peer_msg_handler.go:341-350 | moves the cut without touching the engine |
| `PeerStorages.PeerStorage.GcRaftLog` | kv/raftstore/runner/raftlog_gc.go:29-67 | of all keys exactly the region's log keys from startIdx up to endIdx are gone and the log held does not change; it fails exactly when startIdx is 0 and the search stops at a key that is no log key |
| `PeerStorages.FirstOwn` | kv/raftstore/runner/raftlog_gc.go:32-45 | if the engine has a log key of the region, the search from index 0 finds the region's first one, whatever else is stored |
| `PeerStorages.PutsWrite` | kv/raftstore/peer_storage.go:309-325 | a batch of encoded entries turns an engine that holds a log into one that holds the written log |
| `Bytes.BigEndianOrdered` | kv/raftstore/meta/keys.go:55-63 | big-endian numbers of one width are ordered like the numbers |
| `BytesCodec.EncodeOrdered` | kv/util/codec/codec.go:27-48 | encodings of different strings are ordered like the strings, whatever follows them |
| `BytesCodec.PrefixFree` | kv/util/codec/codec.go:27-48 | no encoding is a proper prefix of another |
| `BytesCodec.EncodedGroup` | kv/util/codec/codec.go:16-48 | every group is eight bytes of the data, zeros behind its end, and a marker of 255 less the number of zeros |
| `BytesCodec.DecodeEncode` | kv/util/codec/codec.go:52-84 | data and leftover are recovered from any encoding followed by anything |
| `BytesCodec.DecodeAcceptsOnlyEncoded` | kv/util/codec/codec.go:52-84 | only such inputs are accepted |
| `BytesCodec.EncodeBytes` | kv/util/codec/codec.go:27-48 | the group loop computes the encoding |
| `BytesCodec.DecodeBytes` | kv/util/codec/codec.go:52-84 | the group loop computes the decoding, errors included |
| `MvccKeys.KeyRoundTrip` | kv/transaction/mvcc/transaction.go:97-120 | user key and timestamp are read back |
| `MvccKeys.KeysOrdered` | kv/transaction/mvcc/transaction.go:97-102 | user keys ascend, timestamps descend |
| `MvccKeys.SeekFindsNewest` | kv/storage/mem_storage.go:213-220 | a seek finds the newest version not after the timestamp exactly when there is one, and otherwise a larger user key or nothing |
| `MvccKeys.SplitKeepsVersionsTogether` | kv/raftstore/runner/split_checker.go:47-54 | a split key never separates two versions of a user key |
| `MvccKeys.SplitMovesBack` | kv/raftstore/runner/split_checker.go:47-54 | cutting back moves the split key only to the front of its own user key |
| `EntryCodec.VarintRoundTrip` | proto/pkg/eraftpb/eraftpb.pb.go:991-999 | every 64-bit number is read back wherever its varint stands |
| `EntryCodec.Sov` | proto/pkg/eraftpb/eraftpb.pb.go:1154-1163 | the loop computes the length of the varint |
| `EntryCodec.EncodeVarint` | proto/pkg/eraftpb/eraftpb.pb.go:991-999 | the in-place loop writes the varint and nothing else |
| `EntryCodec.DecodeVarint` | proto/pkg/eraftpb/eraftpb.pb.go:1173-1188 | the shifting loop reads at most ten bytes and drops what does not fit 64 bits |
| `EntryCodec.EntryRoundTrip` | proto/pkg/eraftpb/eraftpb.pb.go:682-712 | every entry with a non-negative type decodes to itself |
| `EntryCodec.EncodingIsWire` | proto/pkg/eraftpb/eraftpb.pb.go:682-712 | the encoding is the protobuf message of fields 1 to 4 in order, those with default values left out |
| `EntryCodec.ReadVarintEnds` | proto/pkg/eraftpb/eraftpb.pb.go:1173-1188 | a number is read through the first byte below 128, if and only if that is among ten |
| `EntryCodec.ReadVarintOpen` | proto/pkg/eraftpb/eraftpb.pb.go:1173-1188 | a number that does not end before the input does is not read |
| `EntryCodec.UnendedRejected` | proto/pkg/eraftpb/eraftpb.pb.go:1173-1188 | where a field's key cannot be read the input is refused |
| `EntryCodec.WrongFieldRejected` | proto/pkg/eraftpb/eraftpb.pb.go:1189-1260 | a field of number 0, of a wrong wire type or that ends a group is refused, wherever it stands |
| `EntryCodec.TruncatedRejected` | proto/pkg/eraftpb/eraftpb.pb.go:1253-1285 | data announced to reach beyond the input is refused, or a panic where its end overflows |
| `EntryCodec.Size` | proto/pkg/eraftpb/eraftpb.pb.go:1000-1020 | the length of the encoding |
| `EntryCodec.MarshalTo` | proto/pkg/eraftpb/eraftpb.pb.go:682-712 | the encoding is written at the front of the buffer and its length returned |
| `EntryCodec.Marshal` | proto/pkg/eraftpb/eraftpb.pb.go:672-680 | a buffer of Size() bytes is filled exactly |
| `EntryCodec.Unmarshal` | proto/pkg/eraftpb/eraftpb.pb.go:1167-1305 | the loop decodes fields, truncation and malformed input as specified, and panics on a length that overflows |
| `RowCodec.LayoutRoundTrip` | kv/coprocessor/rowcodec/common.go:87-112 | a row is read back as it was laid out, small or large |
| `RowCodec.HeaderPlaces` | kv/coprocessor/rowcodec/encoder.go:168-174 | version, flag and the two counts in the first six bytes |
| `RowCodec.IdPlace` | kv/coprocessor/rowcodec/encoder.go:175-181 | the ids behind the header, four bytes each in a large row and one in a small one |
| `RowCodec.OffsetPlace` | kv/coprocessor/rowcodec/encoder.go:175-181 | the offsets behind the ids, four bytes each in a large row and two in a small one |
| `RowCodec.DataPlace` | kv/coprocessor/rowcodec/encoder.go:182 | the data is the rest |
| `RowCodec.GetDataFinds` | kv/coprocessor/rowcodec/common.go:71-85 | right offsets give each column its bytes |
| `RowCodec.SortSorts` | kv/coprocessor/rowcodec/encoder.go:223-282 | columns with distinct ids end up in strictly ascending order |
| `RowCodec.SortIsForced` | kv/coprocessor/rowcodec/encoder.go:106-121 | every way of sorting columns with distinct ids comes to that same list |
| `RowRoundTrip.ExpectedMeans` | kv/coprocessor/rowcodec/decoder.go:75-122 | the right answer for a column: its bytes, null if it was given as null, the default if it was not given |
| `RowRoundTrip.FreshRoundTrip` | kv/coprocessor/rowcodec/encoder.go:73-185 | a fresh encoder's row answers every present, null and absent column rightly if and only if its data is shorter than 2^32 bytes and not, with small ids, 65535 bytes long |
| `RowRoundTrip.SmallIff` | kv/coprocessor/rowcodec/encoder.go:31-42 | a row is laid out small if and only if every id fits a byte and its data is shorter than 65535 bytes |
| `RowRoundTrip.LostRow` | kv/coprocessor/rowcodec/encoder.go:154-166 | a column of 65535 bytes is lost |
| `RowRoundTrip.ReusedRoundTrip` | kv/coprocessor/rowcodec/encoder.go:73-185 | for every row and all left-over 32-bit offsets: the row decodes if and only if it is large with less than 2^32 bytes, or of 65535 bytes with its own offsets in front of the left-over, or smaller with the left-over a prefix of its offsets |
| `RowRoundTrip.LargeRow` | kv/coprocessor/rowcodec/encoder.go:137-153 | a row that is large by an id or its data decodes if and only if the data is shorter than 2^32 bytes, whatever is left over |
| `RowRoundTrip.EdgeRow` | kv/coprocessor/rowcodec/encoder.go:154-160 | a row of 65535 bytes with small ids takes the left-over for its offsets and decodes if and only if those start with its own and the data can be read in front of the rest |
| `RowRoundTrip.SmallRow` | kv/coprocessor/rowcodec/encoder.go:161-165 | any other row decodes if and only if the left-over, cut to 16 bits, is a prefix of its own offsets |
| `RowRoundTrip.LeftByLastLarge` | kv/coprocessor/rowcodec/encoder.go:137-153 | what any rows leave over are the offsets of the last one that was large by an id or its data |
| `RowRoundTrip.SmallRowsLeaveNothing` | kv/coprocessor/rowcodec/encoder.go:22-29 | rows none of which is large leave the encoder as good as fresh |
| `RowRoundTrip.RowAfterRows` | kv/coprocessor/rowcodec/encoder.go:22-29 | a row encoded after any others decodes if and only if what they leave over does it no harm |
| `RowRoundTrip.SecondRowIsHarmed` | kv/coprocessor/rowcodec/encoder.go:161-165 | after a row with a large id and one byte, a small row of two bytes does not decode |
| `RowCoder.Encoder.AddColumn` | kv/coprocessor/rowcodec/encoder.go:31-42 | counts columns and notes large ids |
| `RowCoder.Encoder.Separate` | kv/coprocessor/rowcodec/encoder.go:86-105 | the in-place loop puts not-null ids and values in front and null ids behind |
| `RowCoder.Encoder.SortColumns` | kv/coprocessor/rowcodec/encoder.go:106-121 | both parts are sorted by id, values with their ids |
| `RowCoder.Encoder.AddValue` | kv/coprocessor/rowcodec/encoder.go:122-153 | a value and its end are added, going over to the large layout midway if need be |
| `RowCoder.Encoder.Finish` | kv/coprocessor/rowcodec/encoder.go:154-166 | what the final switch does to the layout and the offsets |
| `RowCoder.Encoder.Encode` | kv/coprocessor/rowcodec/encoder.go:45-185 | the bytes are the layout of the assembled row, whatever the buffers held before, and the offsets it leaves for the next row |
| `RowCoder.Decoder.Search` | kv/coprocessor/rowcodec/decoder.go:86-105 | a hit has the id looked for; in ascending ids an id is found exactly when it is there |
| `RowCoder.Decoder.DecodeColumn` | kv/coprocessor/rowcodec/decoder.go:75-122 | the column's bytes, null or the default as the row says, if its ids ascend; in any row an answer is null, the default or a column of that id |
| `RowCoder.EncodeAndDecode` | kv/coprocessor/rowcodec/decoder.go:75-122 | encoding a row with an encoder in any state and decoding a column gives the right answer if the row is unharmed |
| `RowCoder.FreshEncodeAndDecode` | kv/coprocessor/rowcodec/decoder.go:75-122 | with a fresh encoder the answer for every column is the right one if the row is not one that is lost |
| `RowCoder.Decoder.IsNull` | kv/coprocessor/rowcodec/decoder.go:155-176 | null for a missing default, and in ascending ids otherwise exactly for a null column |
| `RowCoder.Decoder.ColumnIsNull` | kv/coprocessor/rowcodec/decoder.go:128-153 | in ascending ids, true exactly when the column's answer is null |
| `RowCoder.IntRoundTrip` | kv/coprocessor/rowcodec/common.go:162-190 | every signed 64-bit number is read back from its shortest form |
| `RowCoder.UintRoundTrip` | kv/coprocessor/rowcodec/common.go:192-219 | every unsigned 64-bit number is read back from its shortest form |
| `RowCoder.IntIsShortest` | kv/coprocessor/rowcodec/common.go:162-177 | no shorter of the forms of 1, 2, 4 and 8 bytes holds the signed number |
| `RowCoder.UintIsShortest` | kv/coprocessor/rowcodec/common.go:192-207 | nor the unsigned number |
| `Latches.OneHolder` | kv/transaction/latches/latches.go:42-81 | in every interleaving no key has two holders |
| `Latches.LatchedIffHeld` | kv/transaction/latches/latches.go:42-81 | a key is latched exactly when some thread holds it |
| `Latches.AllOrNothing` | kv/transaction/latches/latches.go:42-62 | an attempt latches all its keys or none, and then waits on the group of the first latched one, which has a live holder |
| `Latches.CountsWhileHeld` | kv/transaction/latches/latches.go:42-81 | a wait group counts exactly while a thread holds its latches, but for a group made for no keys, which nobody waits on |
| `Latches.WaiterHasHolder` | kv/transaction/latches/latches.go:84-92 | who cannot wake waits on a group that a holder's release will let run down |
| `Latches.NobodyStuck` | kv/transaction/latches/latches.go:84-92 | with no holder left every waiter can wake and every attempt succeeds |
| `Latches.NeverPanics` | kv/transaction/latches/latches.go:66-81 | releasing what was acquired never panics |
| `Latches.LatchTable.AcquireLatches` | kv/transaction/latches/latches.go:42-62 | the two loops under the mutex compute one atomic acquisition |
| `Latches.LatchTable.ReleaseLatches` | kv/transaction/latches/latches.go:66-81 | the loop counts the group down once and drops all keys |
| `TopN.CompareMeans` | kv/coprocessor/topn.go:46-68 | a row comes before another if and only if, at the first item in which they differ, it has the smaller value, or the larger one for a descending item; they tie if and only if all items are equal |
| `TopN.TopIsLast` | kv/coprocessor/topn.go:95-118 | no row of the heap comes after the top |
| `TopN.TopNHeap.Less` | kv/coprocessor/topn.go:95-118 | the loop over the order-by items answers whether the other row comes first, each item in its own direction |
| `TopN.TopNHeap.Up` | kv/coprocessor/topn.go:86-89 | sifting up restores the heap and keeps the rows |
| `TopN.TopNHeap.Down` | kv/coprocessor/topn.go:123-139 | sifting down restores the heap of the first rows and leaves the others alone |
| `TopN.TopNHeap.TryToAddRow` | kv/coprocessor/topn.go:123-139 | the heap keeps min(N, seen) rows none of which comes after a row left out |
| `TopN.TopNHeap.Finish` | kv/coprocessor/closure_exec.go:633-635 | the kept rows in order |
| `TopN.SortedPrefix` | kv/coprocessor/closure_exec.go:633-649 | the result equals, position by position and up to ties, the prefix of a sort of everything seen |
| `RegionIndex.SplitsInTwo` | kv/util/engine_util/util.go:105-110 | a key between its ends cuts a region so that every key of it is in exactly one part |
| `RegionIndex.IntersectMeans` | kv/raftstore/raftstore.go:62-85 | two regions share a key exactly when each starts before the other ends |
| `RegionIndex.StoreMeta.GetOverlapRegions` | kv/raftstore/raftstore.go:62-85 | exactly the stored regions that share a key with the given one, as a contiguous stretch of the index |
| `SnapStream.Sender.Read` | kv/raftstore/snap/snap.go:704-727 | the next bytes of the stream, across files, or its end |
| `SnapStream.Sender.ReadFull` | kv/storage/raft_storage/snap_runner.go:104-107 | fills the buffer exactly when enough of the stream is left |
| `SnapStream.Sender.SendSnap` | kv/storage/raft_storage/snap_runner.go:99-112 | the chunks make up the stream, reading never fails and nothing remains |
| `SnapStream.Receiver.Write` | kv/raftstore/snap/snap.go:729-767 | a chunk is spread over the files by their sizes, short only when they are full |
| `SnapStream.Receiver.Save` | kv/raftstore/snap/snap.go:629-645 | the checks pass exactly when everything has been received and every file that is not empty has its checksum |
| `SnapStream.Receiver.RecvSnap` | kv/storage/raft_storage/snap_runner.go:157-178 | the chunks are accepted exactly when none is empty, they have the total size and the files they make have the announced checksums |
| `SnapStream.WrongFileNoticed` | kv/raftstore/snap/snap.go:629-645 | a received file that is not empty and has another checksum than the sender's fails the check |
| `SnapStream.AnyChunkingReassembles` | kv/storage/raft_storage/snap_runner.go:157-173 | any chunking of the sender's stream has its size and checksums and gives the receiver the sender's files |

## Left out

- Snapshots, membership change and crashes in the cluster theorems: terms are overwritten without comparison by snapshot messages, and volatile state is not saved.
- Heartbeats of the receiver's own term after it has voted, for which Election Safety fails (`Heartbeat`).
- Answers to heartbeats in the cluster: a refusal carries the refusing node's term, and the leader takes it for its own without comparing, so a late one can set its term back; that a leader sends an append again after a positive one is an event of the cluster.
- Duplicated vote requests and responses in the cluster: votes are counted without their senders.
- Leader transfer: a transferred leader campaigns, which the cluster's timeouts already may do at any moment.
- ClusterTheorems.StateMachineSafety: runs in which a leader tells a peer that has not answered it in its term; the condition is sufficient and not necessary, and `RepeatedLeadership` shows both that it cannot just be dropped and that breaking it need do no harm.
- Sharing of entries between a log and its messages: messages are values here, while raft/raft.go:664-702 ships pointers into the log's array, and a log that is cut and extended before the message is written out would change it.
- Fields that the wire format drops: ConflictTerm and CommitUse are not serialized (proto/pkg/eraftpb/eraftpb.pb.go:358-359); refusals that carry a conflicting term and commit messages are modelled as delivered in memory.
- RaftNode.Raft.SendAppend: a snapshot, for a peer whose next index was cut off, is modelled as sending nothing.
- RaftNode.Raft.HandleMsgAppendResponse: the message that tells a transferee to campaign once it has caught up is not modelled.
- Convergence of the conflict-term back-off: a slice position is compared with a log index there; the model keeps that comparison.
- 64-bit overflow of terms and indexes in the Raft node and the log's life; keys, codecs and storages state their widths.
- RawNodes.RawNode.HandleSnapshot: the members and their progress that a snapshot message installs are not modelled, because membership is fixed here.
- RaftNode.Raft.Step: proposals, timeouts, heartbeats, snapshots and leader transfer have their own methods; messages for nodes outside the peers are not modelled.
- PeerStorages.PeerStorage.ApplySnapshot: the region's state and data in the key-value engine, which are cleared and written with the log, are not modelled.
- PeerStorages.PeerStorage.SaveReadyState: requires a Ready without a gap, with terms that do not fall; the log's life and the cluster show that Readies are like that. Restart from disk is not modelled, because the last index is written only when the hard state changed.
- PeerStorages.PeerStorage.GcRaftLog: the number of indexes it reports is not modelled.
- EntryCodec.Unmarshal: stops at a field an entry does not have instead of skipping it, so unrecognized bytes are not kept.
- RowCoder.Encoder.Encode: requires fewer than 2^16 columns with distinct ids below 2^32; the source also takes negative, larger and repeated ids, stores them cut to the width in use and leaves the order of equal ones to the library sort.
- RowCoder.Decoder.DecodeColumn: the handle column and the conversion to a chunk are not modelled.
- RowCoder.Encoder.SortColumns: the library sort is an insertion sort on pairs; with distinct ids every sort gives that list (`RowCodec.SortIsForced`).
- TopN.TopNHeap.Finish: the library sort is an insertion sort; comparing data items is comparing ranks, without errors.
- SnapStream.Receiver.Save: the checksum is any function of a file's bytes; renaming and deleting files is not modelled.
- SnapStream.Receiver.RecvSnap: the first message, which names the snapshot, and the shortcut for one that is already there are not modelled.
- Datum kinds other than integers and bytes, encoded by an external library.
- The split checker's scan, which adds up the sizes of a region's pairs until a threshold and then asks for a split: its arithmetic decides when to split and no property of the store depends on it; what a split key must satisfy is proved.
- MemoryStorage hard state and created snapshots, files and gRPC streams.
- Transactions, scanners, the key-value handlers, the scheduler, and the message round trip of the Raft wire format.
