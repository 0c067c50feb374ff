/** The Algorand contract `Vote2Trust` (commit-reveal voting) as a pure transition system.
    Each ABI method is a function from the current state, the transaction sender and the
    latest block timestamp to either the next state or the failed assertion that rejects
    the call; a rejected call leaves the state as it was. */
module Contract {
  import opened Wrappers
  import opened Bytes

  /** An Algorand address. */
  type Account = string

  // Phase numbers as the method bodies assign and compare them.
  const SETUP: nat := 0
  const REGISTRATION: nat := 1
  const COMMIT: nat := 2
  const REVEAL: nat := 3
  const COMPLETED: nat := 4

  /** The contract keeps five option counters and rejects any larger choice. */
  const OPTION_COUNT: nat := 5

  /** The counters `option_0_votes` .. `option_4_votes`. */
  datatype Counts = Counts(o0: nat, o1: nat, o2: nat, o3: nat, o4: nat) {

    function Get(i: nat): nat
      requires i < OPTION_COUNT
    {
      if i == 0 then o0 else if i == 1 then o1 else if i == 2 then o2 else if i == 3 then o3 else o4
    }

    function Total(): nat
    {
      o0 + o1 + o2 + o3 + o4
    }

    /** The counters after one more vote for option `i`. */
    function Increment(i: nat): (c: Counts)
      requires i < OPTION_COUNT
      ensures c.Get(i) == Get(i) + 1
      ensures forall j :: 0 <= j < OPTION_COUNT && j != i ==> c.Get(j) == Get(j)
      ensures c.Total() == Total() + 1
    {
      if i == 0 then this.(o0 := o0 + 1)
      else if i == 1 then this.(o1 := o1 + 1)
      else if i == 2 then this.(o2 := o2 + 1)
      else if i == 3 then this.(o3 := o3 + 1)
      else this.(o4 := o4 + 1)
    }
  }

  /** The local state of one account: `voter_registered`, `vote_committed`, `vote_revealed`
      (0/1 flags), `vote_commit_hash` and `vote_choice`. */
  datatype Voter = Voter(registered: bool, committed: bool, revealed: bool, commitHash: seq<byte>, choice: nat)

  /** What an account that never touched the contract reads as: every field zero. */
  const FRESH_VOTER: Voter := Voter(false, false, false, [], 0)

  /** The global state, together with every account's local state. */
  datatype State = State(
    admin: Account,
    title: string,
    description: string,
    options: string,          // the options as JSON text, never parsed on chain
    phase: nat,
    commitDeadline: nat,
    revealDeadline: nat,
    totalVoters: nat,
    totalVotes: nat,
    counts: Counts,
    voters: map<Account, Voter>)
  {
    function VoterOf(a: Account): Voter
    {
      if a in voters then voters[a] else FRESH_VOTER
    }
  }

  /** The failed `assert` that rejects a call, one per distinct message. */
  datatype Error =
    | NotAdmin                 // "Only admin can ..."
    | WrongPhase               // "... phase not active", "Must be in ... phase", "Cannot create poll while voting is active"
    | AlreadyRegistered
    | NotRegistered            // "Must be registered to vote"
    | AlreadyCommitted
    | CommitDeadlinePassed
    | NotCommitted             // "Must have committed vote first"
    | AlreadyRevealed
    | RevealDeadlinePassed
    | InvalidChoice
    | HashMismatch             // "Hash verification failed"
    | RevealDeadlineNotPassed

  /** Application creation (`__init__`): the creator becomes admin, the phase is 0 and every count is 0. */
  function Create(creator: Account): (s: State)
    ensures s.admin == creator && s.phase == SETUP
    ensures s.totalVoters == 0 && s.totalVotes == 0 && s.counts.Total() == 0
    ensures s.voters == map[]     // no account has local state yet
  {
    State(creator, "", "", "", SETUP, 0, 0, 0, 0, Counts(0, 0, 0, 0, 0), map[])
  }

  /** `create_poll`: admin only and only in phase 0; sets the texts and both deadlines from `now`
      and zeroes the vote counts, but keeps `total_voters` and every account's flags. */
  function CreatePoll(s: State, sender: Account, now: nat, title: string, description: string, options: string,
                      commitDuration: nat, revealDuration: nat): (r: Result<State, Error>)
    ensures r.Ok? <==> sender == s.admin && s.phase == SETUP
    ensures sender != s.admin ==> r == Err(NotAdmin)
    ensures r.Ok? ==>
      var t := r.value;
      && t.title == title && t.description == description && t.options == options
      && t.commitDeadline == now + commitDuration
      && t.revealDeadline == now + commitDuration + revealDuration
      && t.commitDeadline <= t.revealDeadline
      && t.totalVotes == 0 && t.counts.Total() == 0
      && t.totalVoters == s.totalVoters && t.voters == s.voters
      && t.phase == s.phase && t.admin == s.admin
  {
    if sender != s.admin then Err(NotAdmin)
    else if s.phase != SETUP then Err(WrongPhase)
    else Ok(s.(title := title, description := description, options := options,
               commitDeadline := now + commitDuration,
               revealDeadline := now + commitDuration + revealDuration,
               counts := Counts(0, 0, 0, 0, 0), totalVotes := 0))
  }

  /** An admin call that moves the phase from `from` to `from + 1` and changes nothing else. */
  function Advance(s: State, sender: Account, from: nat): (r: Result<State, Error>)
    ensures r.Ok? <==> sender == s.admin && s.phase == from
    ensures r.Ok? ==> r.value == s.(phase := from + 1)
  {
    if sender != s.admin then Err(NotAdmin)
    else if s.phase != from then Err(WrongPhase)
    else Ok(s.(phase := from + 1))
  }

  /** `start_registration`: 0 -> 1. */
  function StartRegistration(s: State, sender: Account): (r: Result<State, Error>)
    ensures r.Ok? <==> sender == s.admin && s.phase == SETUP
    ensures r.Ok? ==> r.value == s.(phase := REGISTRATION)
  {
    Advance(s, sender, SETUP)
  }

  /** `register_voter`: in phase 1, once per account; each success adds exactly one voter. */
  function RegisterVoter(s: State, sender: Account): (r: Result<State, Error>)
    ensures r.Ok? <==> s.phase == REGISTRATION && !s.VoterOf(sender).registered
    ensures s.phase != REGISTRATION ==> r == Err(WrongPhase)
    ensures r.Ok? ==>
      var t := r.value;
      && t.totalVoters == s.totalVoters + 1
      && t.VoterOf(sender) == s.VoterOf(sender).(registered := true)
      && t == s.(totalVoters := t.totalVoters, voters := t.voters)
      && forall a :: a != sender ==> t.VoterOf(a) == s.VoterOf(a)
  {
    var v := s.VoterOf(sender);
    if s.phase != REGISTRATION then Err(WrongPhase)
    else if v.registered then Err(AlreadyRegistered)
    else Ok(s.(voters := s.voters[sender := v.(registered := true)], totalVoters := s.totalVoters + 1))
  }

  /** `start_commit_phase`: 1 -> 2. */
  function StartCommitPhase(s: State, sender: Account): (r: Result<State, Error>)
    ensures r.Ok? <==> sender == s.admin && s.phase == REGISTRATION
    ensures r.Ok? ==> r.value == s.(phase := COMMIT)
  {
    Advance(s, sender, REGISTRATION)
  }

  /** `commit_vote`: in phase 2, by a registered account that has not committed, no later than the
      commit deadline; stores the hash and touches nothing but that account. */
  function CommitVote(s: State, sender: Account, now: nat, voteHash: seq<byte>): (r: Result<State, Error>)
    ensures r.Ok? <==>
      && s.phase == COMMIT
      && s.VoterOf(sender).registered
      && !s.VoterOf(sender).committed
      && now <= s.commitDeadline
    ensures s.phase != COMMIT ==> r == Err(WrongPhase)
    ensures s.phase == COMMIT && !s.VoterOf(sender).registered ==> r == Err(NotRegistered)
    ensures r.Ok? ==>
      var t := r.value;
      && t.VoterOf(sender) == s.VoterOf(sender).(committed := true, commitHash := voteHash)
      && t == s.(voters := t.voters)
      && forall a :: a != sender ==> t.VoterOf(a) == s.VoterOf(a)
  {
    var v := s.VoterOf(sender);
    if s.phase != COMMIT then Err(WrongPhase)
    else if !v.registered then Err(NotRegistered)
    else if v.committed then Err(AlreadyCommitted)
    else if now > s.commitDeadline then Err(CommitDeadlinePassed)
    else Ok(s.(voters := s.voters[sender := v.(committed := true, commitHash := voteHash)]))
  }

  /** `start_reveal_phase`: 2 -> 3. */
  function StartRevealPhase(s: State, sender: Account): (r: Result<State, Error>)
    ensures r.Ok? <==> sender == s.admin && s.phase == COMMIT
    ensures r.Ok? ==> r.value == s.(phase := REVEAL)
  {
    Advance(s, sender, COMMIT)
  }

  /** The bytes `reveal_vote` compares with the stored hash: `itob(choice)` followed by the salt. */
  function ContractCommitment(choice: nat, salt: seq<byte>): (r: seq<byte>)
    requires choice < UINT64_LIMIT
    ensures |r| == 8 + |salt| && r[8..] == salt
    ensures BigEndianValue(r[..8]) == choice
  {
    Itob(choice) + salt
  }

  /** `reveal_vote`: succeeds exactly when every guard holds; then the account is marked revealed,
      `total_votes` and the chosen counter each gain one and every other counter is unchanged. */
  function RevealVote(s: State, sender: Account, now: nat, choice: nat, salt: seq<byte>): (r: Result<State, Error>)
    ensures r.Ok? <==>
      && s.phase == REVEAL
      && s.VoterOf(sender).committed
      && !s.VoterOf(sender).revealed
      && now <= s.revealDeadline
      && choice < OPTION_COUNT
      && ContractCommitment(choice, salt) == s.VoterOf(sender).commitHash
    ensures s.phase == REVEAL && s.VoterOf(sender).committed && !s.VoterOf(sender).revealed
            && now <= s.revealDeadline && choice < OPTION_COUNT
            && ContractCommitment(choice, salt) != s.VoterOf(sender).commitHash
            ==> r == Err(HashMismatch)
    ensures r.Ok? ==>
      var t := r.value;
      && t.totalVotes == s.totalVotes + 1
      && t.counts.Get(choice) == s.counts.Get(choice) + 1
      && (forall j :: 0 <= j < OPTION_COUNT && j != choice ==> t.counts.Get(j) == s.counts.Get(j))
      && t.VoterOf(sender) == s.VoterOf(sender).(revealed := true, choice := choice)
      && t == s.(totalVotes := t.totalVotes, counts := t.counts, voters := t.voters)
      && forall a :: a != sender ==> t.VoterOf(a) == s.VoterOf(a)
  {
    var v := s.VoterOf(sender);
    if s.phase != REVEAL then Err(WrongPhase)
    else if !v.committed then Err(NotCommitted)
    else if v.revealed then Err(AlreadyRevealed)
    else if now > s.revealDeadline then Err(RevealDeadlinePassed)
    else if choice >= OPTION_COUNT then Err(InvalidChoice)
    else if ContractCommitment(choice, salt) != v.commitHash then Err(HashMismatch)
    else Ok(s.(voters := s.voters[sender := v.(revealed := true, choice := choice)],
               totalVotes := s.totalVotes + 1,
               counts := s.counts.Increment(choice)))
  }

  /** `complete_voting`: 3 -> 4, and only once the reveal deadline has passed. */
  function CompleteVoting(s: State, sender: Account, now: nat): (r: Result<State, Error>)
    ensures r.Ok? <==> sender == s.admin && s.phase == REVEAL && now > s.revealDeadline
    ensures r.Ok? ==> r.value == s.(phase := COMPLETED)
  {
    if sender != s.admin then Err(NotAdmin)
    else if s.phase != REVEAL then Err(WrongPhase)
    else if now <= s.revealDeadline then Err(RevealDeadlineNotPassed)
    else Ok(s.(phase := COMPLETED))
  }

  /** `emergency_stop`: from any phase back to 0; nothing else is reset. */
  function EmergencyStop(s: State, sender: Account): (r: Result<State, Error>)
    ensures r.Ok? <==> sender == s.admin
    ensures r.Ok? ==> r.value == s.(phase := SETUP)
  {
    if sender != s.admin then Err(NotAdmin) else Ok(s.(phase := SETUP))
  }

  /** The tuple `get_poll_info` returns. The reveal deadline is not part of it. */
  datatype PollInfo = PollInfo(title: string, description: string, options: string, phase: nat,
                               totalVoters: nat, totalVotes: nat, commitDeadline: nat)

  function GetPollInfo(s: State): (r: PollInfo)
    ensures r.title == s.title && r.description == s.description && r.options == s.options
    ensures r.phase == s.phase && r.totalVoters == s.totalVoters && r.totalVotes == s.totalVotes
    ensures r.commitDeadline == s.commitDeadline
  {
    PollInfo(s.title, s.description, s.options, s.phase, s.totalVoters, s.totalVotes, s.commitDeadline)
  }

  /** `get_vote_counts`: the five counters in option order. */
  function GetVoteCounts(s: State): (r: seq<nat>)
    ensures |r| == OPTION_COUNT
    ensures forall i :: 0 <= i < OPTION_COUNT ==> r[i] == s.counts.Get(i)
  {
    [s.counts.o0, s.counts.o1, s.counts.o2, s.counts.o3, s.counts.o4]
  }

  function Flag(b: bool): nat
  {
    if b then 1 else 0
  }

  /** `get_voter_status`: the sender's registered/committed/revealed flags as 0/1;
      an account the contract has never seen reads as all zero. */
  function GetVoterStatus(s: State, sender: Account): (r: seq<nat>)
    ensures |r| == 3
    ensures r[0] == 1 <==> s.VoterOf(sender).registered
    ensures r[1] == 1 <==> s.VoterOf(sender).committed
    ensures r[2] == 1 <==> s.VoterOf(sender).revealed
    ensures forall i :: 0 <= i < 3 ==> r[i] <= 1
    ensures sender !in s.voters ==> r == [0, 0, 0]
  {
    var v := s.VoterOf(sender);
    [Flag(v.registered), Flag(v.committed), Flag(v.revealed)]
  }

  /** One application call, as the ARC-4 router selects it. */
  datatype Call =
    | CreatePollCall(title: string, description: string, options: string, commitDuration: nat, revealDuration: nat)
    | StartRegistrationCall
    | RegisterVoterCall
    | StartCommitPhaseCall
    | CommitVoteCall(voteHash: seq<byte>)
    | StartRevealPhaseCall
    | RevealVoteCall(voteChoice: nat, salt: seq<byte>)
    | CompleteVotingCall
    | EmergencyStopCall
  {
    /** The four calls that move the phase forward. */
    predicate Advances()
    {
      StartRegistrationCall? || StartCommitPhaseCall? || StartRevealPhaseCall? || CompleteVotingCall?
    }
  }

  /** Dispatches one call by `sender` at block time `now`. */
  function Step(s: State, sender: Account, now: nat, call: Call): (r: Result<State, Error>)
    ensures r.Ok? ==> r.value.admin == s.admin
    ensures r.Ok? && r.value.phase != s.phase ==> sender == s.admin && (call.Advances() || call.EmergencyStopCall?)
    ensures r.Ok? && r.value.totalVotes != s.totalVotes ==> call.RevealVoteCall? || call.CreatePollCall?
    ensures r.Ok? && r.value.totalVoters != s.totalVoters ==> call.RegisterVoterCall?
  {
    match call
    case CreatePollCall(title, description, options, cd, rd) => CreatePoll(s, sender, now, title, description, options, cd, rd)
    case StartRegistrationCall => StartRegistration(s, sender)
    case RegisterVoterCall => RegisterVoter(s, sender)
    case StartCommitPhaseCall => StartCommitPhase(s, sender)
    case CommitVoteCall(h) => CommitVote(s, sender, now, h)
    case StartRevealPhaseCall => StartRevealPhase(s, sender)
    case RevealVoteCall(c, salt) => RevealVote(s, sender, now, c, salt)
    case CompleteVotingCall => CompleteVoting(s, sender, now)
    case EmergencyStopCall => EmergencyStop(s, sender)
  }

  /** One application-call transaction: who sent it, the latest block timestamp, and the call. */
  datatype Tx = Tx(sender: Account, now: nat, call: Call)

  /** The state after a sequence of transactions: a rejected call is not committed to the chain,
      so it leaves the state as it was. */
  function Apply(s: State, txs: seq<Tx>): (r: State)
    ensures r.admin == s.admin
    ensures (forall i :: 0 <= i < |txs| ==> txs[i].sender != s.admin) ==> r.phase == s.phase
    decreases |txs|
  {
    if txs == [] then s
    else
      var next := match Step(s, txs[0].sender, txs[0].now, txs[0].call)
        case Ok(t) => t
        case Err(_) => s;
      Apply(next, txs[1..])
  }
}
