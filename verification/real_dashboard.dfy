/** The dashboard that drives the client ledger (`RealVotingDashboard`): how it decodes what the
    client returns, which bytes it commits and reveals, and which client call each admin phase
    button makes. */
module RealDashboard {
  import opened Wrappers
  import opened Bytes
  import Utf8
  import MockClient
  import Contract
  import opened PollView

  /** `phaseMap[phase] || 'registration'`: positions 0..4 of the phase list, anything else the
      first phase. */
  function DecodePhase(raw: int): (p: UiPhase)
    ensures 0 <= raw < 5 ==> Index(p) == raw
    ensures !(0 <= raw < 5) ==> p == Registration
  {
    if raw == 0 then Registration
    else if raw == 1 then Commit
    else if raw == 2 then Reveal
    else if raw == 3 then Tally
    else if raw == 4 then Completed
    else Registration
  }

  /** Decoding a phase's own position gives the phase back. */
  lemma DecodeIndex(p: UiPhase)
    ensures DecodePhase(Index(p)) == p
  {
  }

  /** The three voter flags: each is set exactly when the matching status entry is 1; with no
      status (no wallet, or a failed fetch) all three are false. */
  datatype VoterFlags = VoterFlags(isRegistered: bool, hasCommitted: bool, hasRevealed: bool)

  function DecodeStatus(status: Option<seq<int>>): (f: VoterFlags)
    ensures status.None? ==> f == VoterFlags(false, false, false)
    ensures status.Some? ==>
      && (f.isRegistered <==> |status.value| > 0 && status.value[0] == 1)
      && (f.hasCommitted <==> |status.value| > 1 && status.value[1] == 1)
      && (f.hasRevealed <==> |status.value| > 2 && status.value[2] == 1)
  {
    match status
    case None => VoterFlags(false, false, false)
    case Some(st) =>
      VoterFlags(|st| > 0 && st[0] == 1, |st| > 1 && st[1] == 1, |st| > 2 && st[2] == 1)
  }

  /** `voteCounts.return[index] || 0`: the count at a position, 0 past the end. */
  function CountAt(counts: seq<nat>, i: nat): nat
  {
    if i < |counts| then counts[i] else 0
  }

  /** The results object built by `options.forEach`: each option keyed to the count at its
      position, a later duplicate overwriting an earlier one. */
  function ResultsFrom(options: seq<string>, counts: seq<nat>): (r: map<string, nat>)
    ensures r.Keys == set o | o in options
    decreases |options|
  {
    if options == [] then map[]
    else
      var n := |options| - 1;
      var prefix := ResultsFrom(options[..n], counts);
      assert forall o :: o in options <==> o in options[..n] || o == options[n];
      prefix[options[n] := CountAt(counts, n)]
  }

  /** With no counts payload the results stay empty. */
  function DecodeResults(options: seq<string>, counts: Option<seq<nat>>): (r: map<string, nat>)
    ensures counts.None? ==> r == map[]
    ensures counts.Some? ==> r.Keys == set o | o in options
  {
    match counts
    case None => map[]
    case Some(cs) => ResultsFrom(options, cs)
  }

  /** An option's result is the count at its LAST position in the option list. */
  lemma {:induction false} ResultsFromLastPosition(options: seq<string>, counts: seq<nat>, i: nat)
    requires i < |options|
    requires forall j :: i < j < |options| ==> options[j] != options[i]
    ensures options[i] in ResultsFrom(options, counts)
    ensures ResultsFrom(options, counts)[options[i]] == CountAt(counts, i)
    decreases |options|
  {
    var n := |options| - 1;
    if i < n {
      ResultsFromLastPosition(options[..n], counts, i);
    }
  }

  /** Hence, for options without duplicates, the result of the option at position `i` is the
      `i`-th count, or 0 when the counts stop short. */
  lemma DistinctOptionsResults(options: seq<string>, counts: seq<nat>, i: nat)
    requires i < |options|
    requires forall j, k :: 0 <= j < k < |options| ==> options[j] != options[k]
    ensures ResultsFrom(options, counts)[options[i]] == (if i < |counts| then counts[i] else 0)
  {
    ResultsFromLastPosition(options, counts, i);
  }

  /** `x || fallback` for a string: the fallback replaces only the empty string. */
  function OrText(x: string, fallback: string): (r: string)
    ensures x != "" ==> r == x
    ensures x == "" ==> r == fallback
  {
    if x == "" then fallback else x
  }

  const DEFAULT_OPTIONS: seq<string> := ["Yes", "No", "Abstain"]

  /** The two phase deadlines the dashboard shows, in milliseconds: the commit end is the
      contract's commit deadline, given in seconds, and the reveal end is assumed one hour later,
      since the reveal deadline is not among the fields the poll query returns. */
  function CommitEndMs(commitDeadline: nat): (ms: nat)
    ensures ms % 1000 == 0 && ms / 1000 == commitDeadline
  {
    commitDeadline * 1000
  }

  function RevealEndMs(commitDeadline: nat): (ms: nat)
    ensures ms == CommitEndMs(commitDeadline) + 3600 * 1000
  {
    (commitDeadline + 3600) * 1000
  }

  /** For a poll the contract created, the reveal end the dashboard shows is the contract's real
      reveal deadline exactly when the reveal duration passed to `create_poll` was one hour;
      otherwise the shown time is wrong, early for a longer reveal and late for a shorter one. */
  lemma ShownRevealEndMatchesContract(s: Contract.State, sender: Contract.Account, now: nat, title: string,
                                      description: string, options: string, commitDuration: nat, revealDuration: nat)
    requires Contract.CreatePoll(s, sender, now, title, description, options, commitDuration, revealDuration).Ok?
    ensures var t := Contract.CreatePoll(s, sender, now, title, description, options, commitDuration, revealDuration).value;
      var shown := RevealEndMs(Contract.GetPollInfo(t).commitDeadline);
      && (shown == t.revealDeadline * 1000 <==> revealDuration == 3600)
      && (shown < t.revealDeadline * 1000 <==> revealDuration > 3600)
  {
  }

  /** `loadPollInfo`: the poll the dashboard shows after reading the client. `parsed` is the
      outcome of parsing the options text as JSON, `None` when parsing throws; `connected` says
      whether a wallet address is active, without which the flags are not fetched. */
  function LoadPollInfo(m: MockClient.Mock, connected: bool, parsed: Option<seq<string>>, nowMs: int): (p: Poll)
    ensures p.title == OrText(m.info.title, "No Poll Active")
    ensures p.description == OrText(m.info.description, "No description available")
    ensures p.options == parsed.GetOr(DEFAULT_OPTIONS)
    ensures p.phase == DecodePhase(m.info.phase)
    ensures p.commitEndMs == CommitEndMs(m.info.commitDeadline) && p.revealEndMs == RevealEndMs(m.info.commitDeadline)
    ensures p.totalVotes == m.info.totalVotes
    ensures p.results == Some(ResultsFrom(p.options, m.voteCounts))
    ensures !connected ==> !p.isRegistered && !p.hasCommitted && !p.hasRevealed
    ensures connected ==> (p.hasRevealed <==> |m.voterStatus| > 2 && m.voterStatus[2] == 1)
    ensures connected ==> VoterFlags(p.isRegistered, p.hasCommitted, p.hasRevealed) == DecodeStatus(Some(m.voterStatus))
  {
    var options := parsed.GetOr(DEFAULT_OPTIONS);
    var flags := DecodeStatus(if connected then Some(m.voterStatus) else None);
    Poll("poll-1",
         OrText(m.info.title, "No Poll Active"),
         OrText(m.info.description, "No description available"),
         options,
         DecodePhase(m.info.phase),
         nowMs,
         CommitEndMs(m.info.commitDeadline),
         RevealEndMs(m.info.commitDeadline),
         m.info.totalVotes,
         Some(DecodeResults(options, Some(m.voteCounts))),
         flags.isRegistered, flags.hasCommitted, flags.hasRevealed)
  }

  /** The commitment `handleVoteCommitted` sends: the choice as one byte, then the salt's UTF-8.
      A missing salt reaches `TextEncoder.encode` as `undefined`, which encodes as the empty text,
      so the no-argument call is modelled with `""`. */
  function CommitHash(voteChoice: MockClient.ChoiceArg, salt: string): (r: seq<byte>)
    ensures |r| == 1 + |Utf8.Encode(salt)|
    ensures r == MockClient.MockCommitment(voteChoice, Utf8.Encode(salt))
  {
    [MockClient.ChoiceByte(voteChoice)] + Utf8.Encode(salt)
  }

  /** The dashboard's view together with the client it holds and who is using it. */
  datatype Dashboard = Dashboard(poll: Poll, client: Option<MockClient.Mock>, connected: bool, isAdmin: bool)

  predicate Valid(d: Dashboard)
  {
    d.client.Some? ==> MockClient.WellFormed(d.client.value)
  }

  /** The handlers act only when a client exists and a wallet is connected. */
  predicate Ready(d: Dashboard)
  {
    d.client.Some? && d.connected
  }

  /** `handleVoterRegistered`. */
  function HandleVoterRegistered(d: Dashboard): (r: Dashboard)
    requires Valid(d)
    ensures Valid(r)
    ensures !Ready(d) ==> r == d
    ensures Ready(d) ==> r.client == Some(MockClient.RegisterVoter(d.client.value)) && r.poll.isRegistered
  {
    if !Ready(d) then d
    else d.(client := Some(MockClient.RegisterVoter(d.client.value)), poll := d.poll.(isRegistered := true))
  }

  /** The flag the handler sets locally is the one a reload reads back from the client, the
      voter count shown after a reload is one higher, and the other two flags and the results
      read back as before. */
  lemma RegisteredSurvivesReload(d: Dashboard, parsed: Option<seq<string>>, nowMs: int)
    requires Valid(d) && Ready(d)
    ensures var m := d.client.value;
      var r := HandleVoterRegistered(d);
      var before := LoadPollInfo(m, true, parsed, nowMs);
      var after := LoadPollInfo(r.client.value, true, parsed, nowMs);
      && after.isRegistered && r.poll.isRegistered
      && r.client.value.info.totalVoters == m.info.totalVoters + 1
      && after.hasCommitted == before.hasCommitted && after.hasRevealed == before.hasRevealed
      && after.results == before.results && after.totalVotes == before.totalVotes
  {
  }

  /** `handleVoteCommitted`: commits `CommitHash(voteChoice, salt)`. */
  function HandleVoteCommitted(d: Dashboard, voteChoice: MockClient.ChoiceArg, salt: string): (r: Dashboard)
    requires Valid(d)
    ensures Valid(r)
    ensures !Ready(d) ==> r == d
    ensures Ready(d) ==> r.client.Some? && r.client.value.committedHash == Some(CommitHash(voteChoice, salt))
    ensures Ready(d) ==> r.poll.hasCommitted && r.connected
  {
    if !Ready(d) then d
    else
      d.(client := Some(MockClient.CommitVote(d.client.value, CommitHash(voteChoice, salt))),
         poll := d.poll.(hasCommitted := true))
  }

  /** `handleVoteRevealed`: reveals the choice with the salt's UTF-8 bytes; a rejected reveal
      changes nothing, an accepted one reloads the poll from the client. */
  function HandleVoteRevealed(d: Dashboard, voteChoice: MockClient.ChoiceArg, salt: string, parsed: Option<seq<string>>,
                              nowMs: int): (r: Dashboard)
    requires Valid(d)
    ensures Valid(r)
    ensures !Ready(d) ==> r == d
    ensures Ready(d) ==>
      var outcome := MockClient.RevealVote(d.client.value, voteChoice, Utf8.Encode(salt));
      && (outcome.Err? ==> r == d)
      && (outcome.Ok? ==> r.client == Some(outcome.value)
                          && r.poll == LoadPollInfo(outcome.value, true, parsed, nowMs)
                          && r.poll.hasRevealed)
  {
    if !Ready(d) then d
    else
      match MockClient.RevealVote(d.client.value, voteChoice, Utf8.Encode(salt))
      case Err(_) => d
      case Ok(m) => d.(client := Some(m), poll := LoadPollInfo(m, true, parsed, nowMs))
  }

  /** The dashboard's commit followed by its reveal of the same choice and salt always passes the
      client's check, and counts exactly one more vote. */
  lemma CommitRevealRoundTrip(d: Dashboard, voteChoice: MockClient.ChoiceArg, salt: string, parsed: Option<seq<string>>, nowMs: int)
    requires Valid(d) && Ready(d)
    ensures var c := HandleVoteCommitted(d, voteChoice, salt);
      var r := HandleVoteRevealed(c, voteChoice, salt, parsed, nowMs);
      && r.client.Some?
      && r.client.value.info.totalVotes == d.client.value.info.totalVotes + 1
      && r.poll.hasRevealed && r.poll.totalVotes == r.client.value.info.totalVotes
  {
  }

  /** The phase components call `onVoteCommitted()` and `onVoteRevealed()` with no arguments, so
      both handlers see `undefined` for the choice and the salt. The commitment is then the single
      byte 0, the reveal rebuilds the same byte and is accepted, and the client counts a vote in
      its total while every option counter, and so every shown result, stays as it was: a
      consistent tally is broken. */
  lemma NoArgumentVoteCountsNothing(d: Dashboard, parsed: Option<seq<string>>, nowMs: int)
    requires Valid(d) && Ready(d)
    ensures var c := HandleVoteCommitted(d, MockClient.Undefined, "");
      var r := HandleVoteRevealed(c, MockClient.Undefined, "", parsed, nowMs);
      && c.client.value.committedHash == Some([0])
      && r.client.Some? && r.poll.hasRevealed
      && r.client.value.info.totalVotes == d.client.value.info.totalVotes + 1
      && r.client.value.voteCounts == d.client.value.voteCounts
      && r.poll.results == Some(ResultsFrom(r.poll.options, d.client.value.voteCounts))
      && (MockClient.ConsistentTally(d.client.value) ==> !MockClient.ConsistentTally(r.client.value))
  {
    var c := HandleVoteCommitted(d, MockClient.Undefined, "");
    assert CommitHash(MockClient.Undefined, "") == [0];
    if MockClient.ConsistentTally(d.client.value) {
      MockClient.RevealWithoutCounterBreaksTally(c.client.value, MockClient.Undefined, []);
    }
  }

  /** Passing the choice and salt the phase components hold: a commit and reveal of option
      `choice` raises exactly that counter, so the results shown after the reload count the vote
      and a consistent tally stays consistent. */
  lemma ChosenVoteCounted(d: Dashboard, choice: nat, salt: string, parsed: Option<seq<string>>, nowMs: int)
    requires Valid(d) && Ready(d) && choice < MockClient.OPTION_SLOTS
    ensures var c := HandleVoteCommitted(d, MockClient.Number(choice), salt);
      var r := HandleVoteRevealed(c, MockClient.Number(choice), salt, parsed, nowMs);
      && r.client.Some? && r.poll.hasRevealed
      && r.client.value.voteCounts == d.client.value.voteCounts[choice := d.client.value.voteCounts[choice] + 1]
      && r.client.value.info.totalVotes == d.client.value.info.totalVotes + 1
      && (MockClient.ConsistentTally(d.client.value) ==> MockClient.ConsistentTally(r.client.value))
  {
    var c := HandleVoteCommitted(d, MockClient.Number(choice), salt);
    var t := MockClient.RevealVote(c.client.value, MockClient.Number(choice), Utf8.Encode(salt)).value;
    assert t.voteCounts == d.client.value.voteCounts[choice := d.client.value.voteCounts[choice] + 1];
    if MockClient.ConsistentTally(d.client.value) {
      MockClient.RevealInRangeKeepsTally(c.client.value, MockClient.Number(choice), Utf8.Encode(salt));
    }
  }

  /** `updatePollPhase`: without a client or admin rights nothing happens; otherwise the client
      call for the target is made (none for `tally`) and the shown phase becomes the target,
      whatever it was. */
  function UpdatePollPhase(d: Dashboard, target: UiPhase): (r: Dashboard)
    ensures d.client.None? || !d.isAdmin ==> r == d
    ensures d.client.Some? && d.isAdmin ==>
      && r.poll == d.poll.(phase := target)
      && r.client.Some?
      && r.client.value.voteCounts == d.client.value.voteCounts
      && r.client.value.voterStatus == d.client.value.voterStatus
      && (target == Tally ==> r.client == d.client)
      && (target != Tally ==> r.client.value.info.phase == Index(target) + (if target == Completed then 0 else 1))
  {
    if d.client.None? || !d.isAdmin then d
    else
      var m := d.client.value;
      var m' := match target
        case Registration => MockClient.StartRegistration(m)
        case Commit => MockClient.StartCommitPhase(m)
        case Reveal => MockClient.StartRevealPhase(m)
        case Completed => MockClient.CompleteVoting(m)
        case Tally => m;
      d.(client := Some(m'), poll := d.poll.(phase := target))
  }

  /** The decoder is one phase ahead of the numbers the contract and the client write: a phase
      button sets the client's number for the target, and reading it back shows the NEXT phase;
      and every state in which the contract accepts `register_voter` decodes as `commit`. */
  lemma DecodePhaseOffByOne(d: Dashboard, s: Contract.State, a: Contract.Account)
    requires d.client.Some? && d.isAdmin
    ensures DecodePhase(UpdatePollPhase(d, Registration).client.value.info.phase) == Commit
    ensures DecodePhase(UpdatePollPhase(d, Commit).client.value.info.phase) == Reveal
    ensures DecodePhase(UpdatePollPhase(d, Reveal).client.value.info.phase) == Tally
    ensures DecodePhase(MockClient.Initial(0).info.phase) == Commit
    ensures Contract.RegisterVoter(s, a).Ok? ==> DecodePhase(s.phase) == Commit
  {
  }

  /** The decoder for the numbering the contract and the client actually use: 0 (setup) and 1 are
      registration, 2 commit, 3 reveal, 4 completed; anything else falls back to registration. */
  function DecodeContractPhase(raw: int): (p: UiPhase)
    ensures p != Tally
    ensures raw == Contract.COMMIT <==> p == Commit
    ensures raw == Contract.REVEAL <==> p == Reveal
    ensures raw == Contract.COMPLETED <==> p == Completed
    ensures p == Registration <==> raw != 2 && raw != 3 && raw != 4
  {
    if raw == 2 then Commit
    else if raw == 3 then Reveal
    else if raw == 4 then Completed
    else Registration
  }

  /** The corrected decoder shows, for every contract state, the phase whose calls the contract
      accepts, and reading back what a phase button wrote shows that button's phase. */
  lemma ContractPhaseAgreesWithGuards(d: Dashboard, s: Contract.State, a: Contract.Account, now: nat,
                                      h: seq<byte>, choice: nat, salt: seq<byte>, target: UiPhase)
    requires d.client.Some? && d.isAdmin && target != Tally
    ensures Contract.RegisterVoter(s, a).Ok? ==> DecodeContractPhase(s.phase) == Registration
    ensures Contract.CommitVote(s, a, now, h).Ok? ==> DecodeContractPhase(s.phase) == Commit
    ensures Contract.RevealVote(s, a, now, choice, salt).Ok? ==> DecodeContractPhase(s.phase) == Reveal
    ensures DecodeContractPhase(UpdatePollPhase(d, target).client.value.info.phase) == target
    ensures DecodeContractPhase(MockClient.Initial(0).info.phase) == Registration
  {
  }

  /** The contract's reveal recomputes `itob(choice) ++ salt`, eight bytes of choice, while the
      dashboard commits one byte of choice: whatever the choice and salt, the reveal the dashboard
      sends after its own commit fails the contract's hash check. */
  lemma DashboardCommitRejectedByContract(s: Contract.State, a: Contract.Account, now: nat, voteChoice: nat, salt: string)
    requires s.VoterOf(a).commitHash == CommitHash(MockClient.Number(voteChoice), salt)
    requires s.phase == Contract.REVEAL && s.VoterOf(a).committed && !s.VoterOf(a).revealed
    requires now <= s.revealDeadline && voteChoice < Contract.OPTION_COUNT
    ensures Contract.RevealVote(s, a, now, voteChoice, Utf8.Encode(salt)) == Err(Contract.HashMismatch)
  {
    var expected := Contract.ContractCommitment(voteChoice, Utf8.Encode(salt));
    assert |expected| != |CommitHash(MockClient.Number(voteChoice), salt)|;
  }

  /** The commitment in the contract's layout: the choice as eight big-endian bytes, then the
      salt's UTF-8. */
  function ContractCommitHash(voteChoice: nat, salt: string): (r: seq<byte>)
    requires voteChoice < UINT64_LIMIT
    ensures |r| == 8 + |Utf8.Encode(salt)|
    ensures BigEndianValue(r[..8]) == voteChoice && Utf8.Decode(r[8..]) == Some(salt)
  {
    Utf8.DecodeEncode(salt);
    Itob(voteChoice) + Utf8.Encode(salt)
  }

  /** With the contract's layout the dashboard's reveal passes the hash check whenever the other
      guards hold. */
  lemma ContractCommitAcceptedByContract(s: Contract.State, a: Contract.Account, now: nat, voteChoice: nat, salt: string)
    requires voteChoice < Contract.OPTION_COUNT
    requires s.VoterOf(a).commitHash == ContractCommitHash(voteChoice, salt)
    requires s.phase == Contract.REVEAL && s.VoterOf(a).committed && !s.VoterOf(a).revealed
    requires now <= s.revealDeadline
    ensures Contract.RevealVote(s, a, now, voteChoice, Utf8.Encode(salt)).Ok?
  {
  }
}
