/** The self-contained commit-reveal dashboard (`ProductionVotingDashboard`): its register,
    commit and reveal handlers over the component state and the browser's local storage, the
    admin phase buttons, and the timeline. Each handler's delayed phase change is applied at once. */
module ProductionDashboard {
  import opened Wrappers
  import opened Bytes
  import opened DashboardCommon

  /** `'registration' | 'commit' | 'reveal' | 'completed'`. */
  datatype Phase = Registration | Commit | Reveal | Completed

  function PhaseName(p: Phase): string
  {
    match p
    case Registration => "registration"
    case Commit => "commit"
    case Reveal => "reveal"
    case Completed => "completed"
  }

  /** The timeline's phase order. */
  function PhaseOrder(): seq<string>
  {
    ["registration", "commit", "reveal", "completed"]
  }

  const SALT_KEY: string := "vote_salt"
  const CHOICE_KEY: string := "vote_choice"

  /** The component state; `storage` stands for `localStorage`. */
  datatype State = State(
    walletConnected: bool,
    phase: Phase,
    isRegistered: bool,
    hasCommitted: bool,
    hasRevealed: bool,
    voteChoice: Option<Ballot>,
    generatedSalt: string,
    results: Tally,
    storage: map<string, string>)

  /** The state the component mounts with; `storage` is whatever the browser already holds. */
  function Initial(storage: map<string, string>): (s: State)
    ensures s.phase == Registration && !s.walletConnected && s.results == Tally(0, 0, 0)
    ensures s.voteChoice == None && s.storage == storage
  {
    State(false, Registration, false, false, false, None, "", Tally(0, 0, 0), storage)
  }

  /** Selecting an option in the vote `<select>` (`None` for the empty entry). */
  function SelectChoice(s: State, choice: Option<Ballot>): (r: State)
    ensures r.voteChoice == choice && r.storage == s.storage && r.results == s.results
  {
    s.(voteChoice := choice)
  }

  /** `connectWallet` / `connectAdminWallet`. */
  function ConnectWallet(s: State): (r: State)
    ensures r.walletConnected && r.storage == s.storage && r.results == s.results
  {
    s.(walletConnected := true)
  }

  /** `handleRegister`: without a wallet nothing changes; otherwise the account is registered and
      the commit phase follows. */
  function HandleRegister(s: State): (r: State)
    ensures !s.walletConnected ==> r == s
    ensures s.walletConnected ==> r.isRegistered && r.phase == Commit
    ensures r.results == s.results && r.storage == s.storage && r.hasCommitted == s.hasCommitted
  {
    if !s.walletConnected then s
    else s.(isRegistered := true, phase := Commit)
  }

  /** `handleCommit`, with `random` the 32 bytes the salt is generated from: needs a wallet and a
      selected choice; stores the new salt and the choice, marks the vote committed and moves on to
      the reveal phase. Registration is not checked and the tally is untouched. */
  function HandleCommit(s: State, random: seq<byte>): (r: State)
    requires |random| == 32
    ensures !s.walletConnected || s.voteChoice.None? ==> r == s
    ensures s.walletConnected && s.voteChoice.Some? ==>
      && r.hasCommitted && r.phase == Reveal
      && r.generatedSalt == SecureSalt(random)
      && r.storage == s.storage[SALT_KEY := SecureSalt(random)][CHOICE_KEY := Label(s.voteChoice.value)]
    ensures r.results == s.results && r.voteChoice == s.voteChoice
  {
    if !s.walletConnected then s
    else match s.voteChoice
      case None => s
      case Some(b) =>
        var salt := SecureSalt(random);
        s.(generatedSalt := salt,
           storage := s.storage[SALT_KEY := salt][CHOICE_KEY := Label(b)],
           hasCommitted := true,
           phase := Reveal)
  }

  /** A stored entry that reads as present: `getItem` returned a non-empty string. */
  predicate Stored(storage: map<string, string>, key: string)
  {
    key in storage && storage[key] != ""
  }

  /** Whether `handleReveal` accepts: a wallet, both stored entries, and a current choice equal to
      the stored one. The stored salt is never compared with anything. */
  predicate RevealAccepted(s: State)
  {
    && s.walletConnected
    && Stored(s.storage, SALT_KEY) && Stored(s.storage, CHOICE_KEY)
    && s.voteChoice.Some? && Label(s.voteChoice.value) == s.storage[CHOICE_KEY]
  }

  /** `handleReveal`: when accepted, counts one vote for the current choice, clears both stored
      entries and moves to completed; otherwise nothing changes. */
  function HandleReveal(s: State): (r: State)
    ensures !RevealAccepted(s) ==> r == s
    ensures RevealAccepted(s) ==>
      && r.hasRevealed && r.phase == Completed
      && r.results == s.results.Bump(s.voteChoice.value)
      && r.storage == s.storage - {SALT_KEY, CHOICE_KEY}
  {
    if !s.walletConnected then s
    else if !Stored(s.storage, SALT_KEY) || !Stored(s.storage, CHOICE_KEY) then s
    else if s.voteChoice.None? || Label(s.voteChoice.value) != s.storage[CHOICE_KEY] then s
    else
      s.(hasRevealed := true,
         results := s.results.Bump(s.voteChoice.value),
         storage := s.storage - {SALT_KEY, CHOICE_KEY},
         phase := Completed)
  }

  /** Without a wallet none of the three handlers changes anything. */
  lemma DisconnectedHandlersAreNoOps(s: State, random: seq<byte>)
    requires |random| == 32 && !s.walletConnected
    ensures HandleRegister(s) == s && HandleCommit(s, random) == s && HandleReveal(s) == s
  {
  }

  /** A successful reveal counts exactly one vote, for the current choice, and no other. */
  lemma RevealCountsOneVote(s: State)
    requires RevealAccepted(s)
    ensures var r := HandleReveal(s);
      && r.results.Get(s.voteChoice.value) == s.results.Get(s.voteChoice.value) + 1
      && (forall c :: c != s.voteChoice.value ==> r.results.Get(c) == s.results.Get(c))
      && r.results.Total() == s.results.Total() + 1
  {
  }

  /** The stored entries are consumed: an immediate second reveal is refused. */
  lemma SecondRevealRefused(s: State)
    requires RevealAccepted(s)
    ensures !RevealAccepted(HandleReveal(s)) && HandleReveal(HandleReveal(s)) == HandleReveal(s)
  {
  }

  /** The salt plays no part: with any non-empty text stored as the salt, the outcome is the
      same. */
  lemma RevealIgnoresSalt(s: State, salt1: string, salt2: string)
    requires salt1 != "" && salt2 != ""
    ensures var s1 := s.(storage := s.storage[SALT_KEY := salt1]);
      var s2 := s.(storage := s.storage[SALT_KEY := salt2]);
      && (RevealAccepted(s1) <==> RevealAccepted(s2))
      && HandleReveal(s1).results == HandleReveal(s2).results
  {
  }

  /** A reveal with a choice other than the committed one is refused. */
  lemma ChangedChoiceRefused(s: State, random: seq<byte>, other: Ballot)
    requires |random| == 32 && s.walletConnected && s.voteChoice.Some? && other != s.voteChoice.value
    ensures var c := HandleCommit(s, random);
      !RevealAccepted(SelectChoice(c, Some(other)))
  {
    LabelInjective(other, s.voteChoice.value);
  }

  /** Commit followed by reveal of the same choice counts that choice once. */
  lemma CommitThenRevealCounts(s: State, random: seq<byte>)
    requires |random| == 32 && s.walletConnected && s.voteChoice.Some?
    ensures var r := HandleReveal(HandleCommit(s, random));
      && r.results == s.results.Bump(s.voteChoice.value)
      && r.phase == Completed
      && SALT_KEY !in r.storage && CHOICE_KEY !in r.storage
  {
  }

  /** The admin buttons set any phase directly. */
  function AdminSetPhase(s: State, p: Phase): (r: State)
    ensures r.phase == p && r.results == s.results && r.storage == s.storage
  {
    s.(phase := p)
  }

  /** The timeline dot for `target` in this dashboard's state. */
  function DotActive(s: State, target: string): bool
  {
    TimelineDotActive(PhaseOrder(), PhaseName(s.phase), target)
  }

  /** A phase's dot is lit exactly when that phase is not later than the current one. */
  lemma DotActiveIffNotLater(s: State, target: Phase)
    ensures DotActive(s, PhaseName(target)) <==> PhaseRank(target) <= PhaseRank(s.phase)
  {
    var order := PhaseOrder();
    assert forall a, b :: 0 <= a < b < |order| ==> order[a] != order[b];
    assert order[PhaseRank(target)] == PhaseName(target);
    assert order[PhaseRank(s.phase)] == PhaseName(s.phase);
    TimelineDotActiveByPosition(order, PhaseRank(target), PhaseRank(s.phase), "", "");
  }

  /** A phase's position in the timeline order. */
  function PhaseRank(p: Phase): nat
  {
    match p
    case Registration => 0
    case Commit => 1
    case Reveal => 2
    case Completed => 3
  }
}
