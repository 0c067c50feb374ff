/** The in-memory ledger the frontend talks to in place of the deployed application
    (`RealVote2TrustClient`): one poll record, five vote counters, the connected account's three
    status flags and a single stored commitment. None of its calls checks the phase, a deadline or
    the caller, and the reveal check compares raw bytes. */
module MockClient {
  import opened Wrappers
  import opened Bytes

  /** The fields `get_poll_info` returns, in the same order. */
  datatype PollInfo = PollInfo(
    title: string,
    description: string,
    options: string,          // JSON text, parsed only by the dashboard
    phase: nat,
    totalVoters: nat,
    totalVotes: nat,
    commitDeadline: nat)      // seconds

  /** The whole client state: `pollInfo`, `voteCounts`, `voterStatus` and the commitment stored
      under the one key `current_user`. */
  datatype Mock = Mock(
    info: PollInfo,
    voteCounts: seq<nat>,
    voterStatus: seq<nat>,    // [registered, committed, revealed] as 0/1
    committedHash: Option<seq<byte>>)

  /** Why `reveal_vote` throws: the only error the client raises. */
  datatype RevealError = HashVerificationFailed

  const OPTION_SLOTS: nat := 5

  /** The shape every reachable client state keeps: five counters and three flags. */
  predicate WellFormed(m: Mock)
  {
    |m.voteCounts| == OPTION_SLOTS && |m.voterStatus| == 3
  }

  /** The sum of a list of counters. */
  function Sum(xs: seq<nat>): nat
  {
    if xs == [] then 0 else Sum(xs[..|xs| - 1]) + xs[|xs| - 1]
  }

  /** Raising one counter by one raises the sum by one. */
  lemma {:induction false} SumIncrement(xs: seq<nat>, i: nat)
    requires i < |xs|
    ensures Sum(xs[i := xs[i] + 1]) == Sum(xs) + 1
    decreases |xs|
  {
    var ys := xs[i := xs[i] + 1];
    var n := |xs| - 1;
    if i < n {
      SumIncrement(xs[..n], i);
      assert ys[..n] == xs[..n][i := xs[i] + 1];
    } else {
      assert ys[..n] == xs[..n];
    }
  }

  /** Counters that are all zero sum to zero. */
  lemma {:induction false} SumOfZeros(xs: seq<nat>)
    requires forall i :: 0 <= i < |xs| ==> xs[i] == 0
    ensures Sum(xs) == 0
    decreases |xs|
  {
    if xs != [] {
      SumOfZeros(xs[..|xs| - 1]);
    }
  }

  /** The state a freshly constructed client starts in, with `nowMs` the wall clock in
      milliseconds: the sample poll in phase 1, every counter and flag zero, nothing committed and
      the commit deadline one hour after construction. */
  function Initial(nowMs: nat): (m: Mock)
    ensures WellFormed(m)
    ensures m.info.phase == 1 && m.info.totalVoters == 0 && m.info.totalVotes == 0
    ensures forall i :: 0 <= i < OPTION_SLOTS ==> m.voteCounts[i] == 0
    ensures m.voterStatus == [0, 0, 0] && m.committedHash == None
    ensures m.info.commitDeadline * 1000 <= nowMs + 3600 * 1000 < (m.info.commitDeadline + 1) * 1000
  {
    Mock(PollInfo("Sample Governance Vote", "Should we implement the new feature X in our protocol?",
                  "[\"Yes\", \"No\", \"Abstain\"]", 1, 0, 0, nowMs / 1000 + 3600),
         [0, 0, 0, 0, 0], [0, 0, 0], None)
  }

  /** `create_poll`: replaces the three texts; the phase, the counters, the flags and the stored
      commitment are untouched, and the durations passed in are ignored. */
  function CreatePoll(m: Mock, title: string, description: string, options: string): (r: Mock)
    ensures r.info.title == title && r.info.description == description && r.info.options == options
    ensures r.info.phase == m.info.phase && r.info.commitDeadline == m.info.commitDeadline
    ensures r.info.totalVoters == m.info.totalVoters && r.info.totalVotes == m.info.totalVotes
    ensures r.voteCounts == m.voteCounts && r.voterStatus == m.voterStatus
    ensures r.committedHash == m.committedHash
  {
    m.(info := m.info.(title := title, description := description, options := options))
  }

  /** The phase setters write their constant whatever the current phase is. */
  function SetPhase(m: Mock, phase: nat): (r: Mock)
    ensures r.info.phase == phase
    ensures r.info.title == m.info.title && r.info.description == m.info.description && r.info.options == m.info.options
    ensures r.info.totalVoters == m.info.totalVoters
    ensures r.info.totalVotes == m.info.totalVotes && r.info.commitDeadline == m.info.commitDeadline
    ensures r.voteCounts == m.voteCounts && r.voterStatus == m.voterStatus && r.committedHash == m.committedHash
  {
    m.(info := m.info.(phase := phase))
  }

  /** `start_registration`, `start_commit_phase`, `start_reveal_phase` and `complete_voting`:
      phases 1 to 4 with the contract's numbering, each written from any phase and with every
      other field kept. */
  function StartRegistration(m: Mock): (r: Mock)
    ensures r.info == m.info.(phase := 1)
    ensures r.voteCounts == m.voteCounts && r.voterStatus == m.voterStatus && r.committedHash == m.committedHash
  {
    SetPhase(m, 1)
  }

  function StartCommitPhase(m: Mock): (r: Mock)
    ensures r.info == m.info.(phase := 2)
    ensures r.voteCounts == m.voteCounts && r.voterStatus == m.voterStatus && r.committedHash == m.committedHash
  {
    SetPhase(m, 2)
  }

  function StartRevealPhase(m: Mock): (r: Mock)
    ensures r.info == m.info.(phase := 3)
    ensures r.voteCounts == m.voteCounts && r.voterStatus == m.voterStatus && r.committedHash == m.committedHash
  {
    SetPhase(m, 3)
  }

  function CompleteVoting(m: Mock): (r: Mock)
    ensures r.info == m.info.(phase := 4)
    ensures r.voteCounts == m.voteCounts && r.voterStatus == m.voterStatus && r.committedHash == m.committedHash
  {
    SetPhase(m, 4)
  }

  /** `register_voter`: sets the registered flag and adds one voter, on every call. */
  function RegisterVoter(m: Mock): (r: Mock)
    requires WellFormed(m)
    ensures WellFormed(r)
    ensures r.voterStatus[0] == 1 && r.voterStatus[1..] == m.voterStatus[1..]
    ensures r.info == m.info.(totalVoters := m.info.totalVoters + 1)
    ensures r.voteCounts == m.voteCounts && r.committedHash == m.committedHash
  {
    m.(voterStatus := m.voterStatus[0 := 1], info := m.info.(totalVoters := m.info.totalVoters + 1))
  }

  /** `commit_vote`: sets the committed flag and stores `voteHash`, replacing any earlier one. */
  function CommitVote(m: Mock, voteHash: seq<byte>): (r: Mock)
    requires WellFormed(m)
    ensures WellFormed(r)
    ensures r.committedHash == Some(voteHash)
    ensures r.voterStatus[1] == 1 && r.voterStatus[0] == m.voterStatus[0] && r.voterStatus[2] == m.voterStatus[2]
    ensures r.info == m.info && r.voteCounts == m.voteCounts
  {
    m.(voterStatus := m.voterStatus[1 := 1], committedHash := Some(voteHash))
  }

  /** The `vote_choice` a caller hands over, as JavaScript holds it: a number, or `undefined`
      when the caller passes nothing. */
  datatype ChoiceArg = Number(n: int) | Undefined

  /** The element `new Uint8Array([vote_choice, ...])` stores for the choice: a number wrapped to
      one byte; `undefined` converts to `NaN`, which is stored as 0. */
  function ChoiceByte(c: ChoiceArg): (b: byte)
  {
    match c
    case Number(n) => ToUint8(n)
    case Undefined => 0
  }

  /** Whether `voteCounts[vote_choice] += 1` raises one of the five counters: only for a number
      naming one of them. Any other number writes `NaN` at a new index, and `undefined` writes it
      under the key "undefined". */
  predicate NamesCounter(c: ChoiceArg)
  {
    c.Number? && 0 <= c.n < OPTION_SLOTS
  }

  /** The bytes the client rebuilds at reveal time: the choice, wrapped to one byte as a
      `Uint8Array` element, followed by the salt bytes. */
  function MockCommitment(choice: ChoiceArg, salt: seq<byte>): (r: seq<byte>)
    ensures |r| == 1 + |salt| && r[1..] == salt
    ensures choice.Number? && 0 <= choice.n < 256 ==> r[0] == choice.n
    ensures choice.Number? ==> (r[0] - choice.n) % 256 == 0
    ensures choice == Undefined ==> r[0] == 0
  {
    [ChoiceByte(choice)] + salt
  }

  /** `reveal_vote`: succeeds exactly when a commitment is stored and equals
      `MockCommitment(choice, salt)`; then the revealed flag is set, `totalVotes` gains one and,
      when `choice` names one of the five counters, that counter gains one. */
  function RevealVote(m: Mock, choice: ChoiceArg, salt: seq<byte>): (r: Result<Mock, RevealError>)
    requires WellFormed(m)
    ensures r.Ok? <==> m.committedHash.Some? && m.committedHash.value == MockCommitment(choice, salt)
    ensures r.Ok? ==>
      var t := r.value;
      && WellFormed(t)
      && t.voterStatus[2] == 1 && t.voterStatus[..2] == m.voterStatus[..2]
      && t.info == m.info.(totalVotes := m.info.totalVotes + 1)
      && t.committedHash == m.committedHash
      && (NamesCounter(choice) ==> t.voteCounts[choice.n] == m.voteCounts[choice.n] + 1)
      && (forall j :: 0 <= j < OPTION_SLOTS && choice != Number(j) ==> t.voteCounts[j] == m.voteCounts[j])
  {
    if m.committedHash.Some? && m.committedHash.value == MockCommitment(choice, salt) then
      var counts := if NamesCounter(choice) then m.voteCounts[choice.n := m.voteCounts[choice.n] + 1]
                    else m.voteCounts;
      Ok(m.(voterStatus := m.voterStatus[2 := 1],
            info := m.info.(totalVotes := m.info.totalVotes + 1),
            voteCounts := counts))
    else Err(HashVerificationFailed)
  }

  /** The reveal check as the client performs it, with the element-by-element comparison of
      `arraysEqual`; it decides exactly what `RevealVote` decides. */
  method CheckReveal(m: Mock, choice: ChoiceArg, salt: seq<byte>) returns (ok: bool)
    requires WellFormed(m)
    ensures ok <==> RevealVote(m, choice, salt).Ok?
  {
    if m.committedHash.None? {
      return false;
    }
    ok := ArraysEqual(MockCommitment(choice, salt), m.committedHash.value);
  }

  /** `totalVotes` equals the sum of the five counters. */
  predicate ConsistentTally(m: Mock)
  {
    WellFormed(m) && m.info.totalVotes == Sum(m.voteCounts)
  }

  /** The client starts consistent, and every call except a reveal keeps it so. */
  lemma NonRevealCallsKeepTally(m: Mock, nowMs: nat, title: string, description: string, options: string,
                                phase: nat, voteHash: seq<byte>)
    requires ConsistentTally(m)
    ensures ConsistentTally(Initial(nowMs))
    ensures ConsistentTally(CreatePoll(m, title, description, options))
    ensures ConsistentTally(SetPhase(m, phase))
    ensures ConsistentTally(RegisterVoter(m))
    ensures ConsistentTally(CommitVote(m, voteHash))
  {
    SumOfZeros(Initial(nowMs).voteCounts);
  }

  /** A reveal keeps the tally consistent when its choice names one of the five counters. */
  lemma RevealInRangeKeepsTally(m: Mock, choice: ChoiceArg, salt: seq<byte>)
    requires ConsistentTally(m)
    requires RevealVote(m, choice, salt).Ok? && NamesCounter(choice)
    ensures ConsistentTally(RevealVote(m, choice, salt).value)
  {
    SumIncrement(m.voteCounts, choice.n);
  }

  /** A successful reveal whose choice names no counter (an out-of-range number, or `undefined`)
      counts a vote in `totalVotes` while every counter stays as it was, so a consistent tally is
      always broken by it. */
  lemma RevealWithoutCounterBreaksTally(m: Mock, choice: ChoiceArg, salt: seq<byte>)
    requires ConsistentTally(m)
    requires RevealVote(m, choice, salt).Ok? && !NamesCounter(choice)
    ensures RevealVote(m, choice, salt).value.voteCounts == m.voteCounts
    ensures RevealVote(m, choice, salt).value.info.totalVotes == Sum(m.voteCounts) + 1
    ensures !ConsistentTally(RevealVote(m, choice, salt).value)
  {
  }

  /** A reveal whose choice is outside 0..4 still counts a vote but raises no counter, so
      `totalVotes` and the counters part ways: the client takes any number as the choice and the
      byte check sees it only modulo 256. */
  lemma RevealOutOfRangeBreaksTally(nowMs: nat)
    ensures var m := CommitVote(Initial(nowMs), [5]);
      var r := RevealVote(m, Number(5), []);
      && ConsistentTally(m)
      && r.Ok? && r.value.info.totalVotes == 1 && Sum(r.value.voteCounts) == 0
  {
    var m := CommitVote(Initial(nowMs), [5]);
    SumOfZeros(m.voteCounts);
    assert MockCommitment(Number(5), []) == [5];
    var t := RevealVote(m, Number(5), []).value;
    SumOfZeros(t.voteCounts);
  }

  /** `reveal_vote` with the range check the contract makes (`vote_choice < 5`): a choice outside
      the five counters is refused with the state unchanged. */
  function RevealVoteChecked(m: Mock, choice: ChoiceArg, salt: seq<byte>): (r: Result<Mock, RevealError>)
    requires WellFormed(m)
    ensures r.Ok? <==> RevealVote(m, choice, salt).Ok? && NamesCounter(choice)
    ensures r.Ok? ==> r == RevealVote(m, choice, salt)
  {
    if NamesCounter(choice) then RevealVote(m, choice, salt) else Err(HashVerificationFailed)
  }

  /** With the range check in place, every successful reveal keeps `totalVotes` equal to the sum
      of the counters. */
  lemma CheckedRevealKeepsTally(m: Mock, choice: ChoiceArg, salt: seq<byte>)
    requires ConsistentTally(m)
    requires RevealVoteChecked(m, choice, salt).Ok?
    ensures ConsistentTally(RevealVoteChecked(m, choice, salt).value)
  {
    RevealInRangeKeepsTally(m, choice, salt);
  }

  /** Committing the bytes the client itself rebuilds makes the matching reveal succeed, whatever
      was stored before; a second commit overwrites the first. */
  lemma CommitThenRevealSucceeds(m: Mock, choice: ChoiceArg, salt: seq<byte>, earlier: seq<byte>)
    requires WellFormed(m)
    ensures RevealVote(CommitVote(m, MockCommitment(choice, salt)), choice, salt).Ok?
    ensures RevealVote(CommitVote(CommitVote(m, earlier), MockCommitment(choice, salt)), choice, salt).Ok?
  {
  }

  /** Unlike the contract, the client lets the same account register twice and counts it twice,
      lets a commitment be replaced after it was made, moves the phase backwards, and, since a
      reveal keeps the stored commitment, accepts the same reveal again and counts it again. */
  lemma MockSkipsContractGuards(m: Mock, h1: seq<byte>, h2: seq<byte>, choice: ChoiceArg, salt: seq<byte>)
    requires WellFormed(m)
    ensures RegisterVoter(RegisterVoter(m)).info.totalVoters == m.info.totalVoters + 2
    ensures CommitVote(CommitVote(m, h1), h2).committedHash == Some(h2)
    ensures StartCommitPhase(CompleteVoting(m)).info.phase == 2
    ensures RevealVote(m, choice, salt).Ok? ==>
      var once := RevealVote(m, choice, salt).value;
      && RevealVote(once, choice, salt).Ok?
      && RevealVote(once, choice, salt).value.info.totalVotes == m.info.totalVotes + 2
  {
  }
}
