/** Properties of the `Vote2Trust` contract that relate several calls or hold of every
    reachable state: forward-only phases, final commitments, and the vote-count invariant. */
module ContractProps {
  import opened Wrappers
  import opened Bytes
  import opened Contract

  /** The accounts whose `voter_registered` flag is set. */
  function Registered(s: State): set<Account>
  {
    set a | a in s.voters && s.voters[a].registered
  }

  /** The accounts whose `vote_revealed` flag is set. */
  function Revealed(s: State): set<Account>
  {
    set a | a in s.voters && s.voters[a].revealed
  }

  /** Per account, revealed implies committed implies registered. */
  predicate FlagsOrdered(v: Voter)
  {
    (v.revealed ==> v.committed) && (v.committed ==> v.registered)
  }

  /** What holds in every state the contract can reach. */
  predicate Invariant(s: State)
  {
    && s.phase <= COMPLETED
    && s.totalVotes == s.counts.Total()
    && (forall v :: v in s.voters.Values ==> FlagsOrdered(v))
    && s.totalVoters == |Registered(s)|
    && s.totalVotes <= |Revealed(s)|
    && s.commitDeadline <= s.revealDeadline
  }

  /** A state in which no account has local state and nothing is counted satisfies the invariant. */
  lemma EmptyStateInvariant(s: State)
    requires s.voters == map[] && s.totalVoters == 0 && s.totalVotes == 0 && s.counts.Total() == 0
    requires s.phase <= COMPLETED && s.commitDeadline <= s.revealDeadline
    ensures Invariant(s)
  {
    assert Registered(s) == {};
    assert Revealed(s) == {};
  }

  /** The invariant holds from application creation on. */
  lemma CreateEstablishesInvariant(creator: Account)
    ensures Invariant(Create(creator))
  {
    EmptyStateInvariant(Create(creator));
  }

  /** `create_poll` keeps the invariant: it zeroes `total_votes` together with every counter. */
  lemma CreatePollPreservesInvariant(s: State, t: State, sender: Account, now: nat, title: string,
                                     description: string, options: string, cd: nat, rd: nat)
    requires Invariant(s)
    requires CreatePoll(s, sender, now, title, description, options, cd, rd) == Ok(t)
    ensures Invariant(t)
  {
    assert Registered(t) == Registered(s);
    assert Revealed(t) == Revealed(s);
  }

  /** A call that changes only the phase, to one of the five phases, keeps the invariant. */
  lemma PhaseChangePreservesInvariant(s: State, t: State)
    requires Invariant(s)
    requires t == s.(phase := t.phase) && t.phase <= COMPLETED
    ensures Invariant(t)
  {
    assert Registered(t) == Registered(s);
    assert Revealed(t) == Revealed(s);
  }

  /** Every account's flags are ordered when every stored voter's are. */
  lemma FlagsOrderedAt(s: State, a: Account)
    requires forall v :: v in s.voters.Values ==> FlagsOrdered(v)
    ensures FlagsOrdered(s.VoterOf(a))
  {
    if a in s.voters {
      assert s.voters[a] in s.voters.Values;
    }
  }

  /** Storing one voter with ordered flags keeps every stored voter's flags ordered. */
  lemma UpdateKeepsFlagsOrdered(m: map<Account, Voter>, k: Account, w: Voter)
    requires forall v :: v in m.Values ==> FlagsOrdered(v)
    requires FlagsOrdered(w)
    ensures forall v :: v in m[k := w].Values ==> FlagsOrdered(v)
  {
    forall v | v in m[k := w].Values
      ensures FlagsOrdered(v)
    {
      var b :| b in m[k := w] && m[k := w][b] == v;
      if b != k {
        assert m[b] in m.Values;
      }
    }
  }

  /** `register_voter` adds one account to the registered set and one to `total_voters`. */
  lemma RegisterPreservesInvariant(s: State, t: State, sender: Account)
    requires Invariant(s)
    requires RegisterVoter(s, sender) == Ok(t)
    ensures Invariant(t)
  {
    var v := s.VoterOf(sender);
    var w := v.(registered := true);
    FlagsOrderedAt(s, sender);
    assert t.voters == s.voters[sender := w];
    UpdateKeepsFlagsOrdered(s.voters, sender, w);
    assert !v.revealed;
    assert sender !in Registered(s);
    assert Registered(t) == Registered(s) + {sender} by {
      forall a ensures a in Registered(t) <==> a in Registered(s) + {sender} {
        if a != sender {
          assert t.VoterOf(a) == s.VoterOf(a);
        }
      }
    }
    assert Revealed(t) == Revealed(s) by {
      forall a ensures a in Revealed(t) <==> a in Revealed(s) {
        if a != sender {
          assert t.VoterOf(a) == s.VoterOf(a);
        }
      }
    }
    assert |Registered(t)| == |Registered(s)| + 1;
  }

  /** `commit_vote` sets a flag that neither set counts. */
  lemma CommitPreservesInvariant(s: State, t: State, sender: Account, now: nat, h: seq<byte>)
    requires Invariant(s)
    requires CommitVote(s, sender, now, h) == Ok(t)
    ensures Invariant(t)
  {
    var v := s.VoterOf(sender);
    var w := v.(committed := true, commitHash := h);
    FlagsOrderedAt(s, sender);
    assert t.voters == s.voters[sender := w];
    UpdateKeepsFlagsOrdered(s.voters, sender, w);
    assert Registered(t) == Registered(s);
    assert Revealed(t) == Revealed(s);
  }

  /** `reveal_vote` adds one account to the revealed set, one to `total_votes` and one to a counter. */
  lemma RevealPreservesInvariant(s: State, t: State, sender: Account, now: nat, choice: nat, salt: seq<byte>)
    requires Invariant(s)
    requires RevealVote(s, sender, now, choice, salt) == Ok(t)
    ensures Invariant(t)
  {
    var v := s.VoterOf(sender);
    var w := v.(revealed := true, choice := choice);
    FlagsOrderedAt(s, sender);
    assert t.voters == s.voters[sender := w];
    UpdateKeepsFlagsOrdered(s.voters, sender, w);
    assert Registered(t) == Registered(s);
    assert Revealed(t) == Revealed(s) + {sender};
  }

  /** Every successful call keeps the invariant: in particular `total_votes` always equals the
      sum of the five counters, and never exceeds the number of revealed accounts. */
  lemma StepPreservesInvariant(s: State, t: State, sender: Account, now: nat, call: Call)
    requires Invariant(s)
    requires Step(s, sender, now, call) == Ok(t)
    ensures Invariant(t)
  {
    match call
    case CreatePollCall(title, description, options, cd, rd) =>
      CreatePollPreservesInvariant(s, t, sender, now, title, description, options, cd, rd);
    case RegisterVoterCall =>
      RegisterPreservesInvariant(s, t, sender);
    case CommitVoteCall(h) =>
      CommitPreservesInvariant(s, t, sender, now, h);
    case RevealVoteCall(c, salt) =>
      RevealPreservesInvariant(s, t, sender, now, c, salt);
    case _ =>
      PhaseChangePreservesInvariant(s, t);
  }

  /** A subset is no larger than its superset. */
  lemma SubsetCardinality<T>(a: set<T>, b: set<T>)
    requires a <= b
    ensures |a| <= |b|
  {
    assert b == a + (b - a);
  }

  /** Hence no more votes are ever counted than voters were registered. */
  lemma VotesAtMostVoters(s: State)
    requires Invariant(s)
    ensures s.totalVotes <= s.totalVoters
  {
    assert Revealed(s) <= Registered(s) by {
      forall a | a in Revealed(s) ensures a in Registered(s) {
        assert FlagsOrdered(s.voters[a]);
      }
    }
    SubsetCardinality(Revealed(s), Registered(s));
  }

  /** What the three getters report in any state satisfying the invariant: the five counters
      add up to the reported vote total, which is at most the reported voter total; the
      reported phase is one of the five; and the caller's status is one of the four flag
      combinations a voter can reach, in order. */
  lemma GettersAgreeWithInvariant(s: State, sender: Account)
    requires Invariant(s)
    ensures var c := GetVoteCounts(s);
      c[0] + c[1] + c[2] + c[3] + c[4] == GetPollInfo(s).totalVotes
    ensures GetPollInfo(s).totalVotes <= GetPollInfo(s).totalVoters
    ensures GetPollInfo(s).phase <= COMPLETED
    ensures GetVoterStatus(s, sender) in [[0, 0, 0], [1, 0, 0], [1, 1, 0], [1, 1, 1]]
  {
    VotesAtMostVoters(s);
    FlagsOrderedAt(s, sender);
  }

  /** The phase never jumps: it rises by one only through an admin advance call, and it falls
      only through `emergency_stop`, which always lands on 0. Completion needs the reveal
      deadline to have passed. */
  lemma PhaseMovesInOrder(s: State, sender: Account, now: nat, call: Call)
    requires Step(s, sender, now, call).Ok?
    ensures var t := Step(s, sender, now, call).value;
      && t.phase <= s.phase + 1
      && (t.phase > s.phase ==> call.Advances() && sender == s.admin)
      && (t.phase < s.phase ==> call.EmergencyStopCall? && sender == s.admin && t.phase == SETUP)
      && (t.phase != s.phase ==> sender == s.admin)
      && (t.phase == COMPLETED && s.phase != COMPLETED ==> call.CompleteVotingCall? && s.phase == REVEAL && now > s.revealDeadline)
  {
    match call
    case StartRegistrationCall =>
    case StartCommitPhaseCall =>
    case StartRevealPhaseCall =>
    case CompleteVotingCall =>
    case EmergencyStopCall =>
    case _ =>
  }

  /** Account flags are never cleared, not even by `emergency_stop`, and a stored commitment is
      never overwritten: `vote_committed` stays set, so a second `commit_vote` always fails. */
  lemma CommitmentIsFinal(s: State, sender: Account, now: nat, call: Call, a: Account)
    requires Step(s, sender, now, call).Ok?
    ensures var t := Step(s, sender, now, call).value;
      && (s.VoterOf(a).registered ==> t.VoterOf(a).registered)
      && (s.VoterOf(a).committed ==> t.VoterOf(a).committed && t.VoterOf(a).commitHash == s.VoterOf(a).commitHash)
      && (s.VoterOf(a).revealed ==> t.VoterOf(a).revealed && t.VoterOf(a).choice == s.VoterOf(a).choice)
  {
    match call
    case RegisterVoterCall =>
    case CommitVoteCall(h) =>
    case RevealVoteCall(c, salt) =>
    case _ =>
  }

  /** Because `emergency_stop` resets only the phase, an account registered for one poll can
      never register for the next one, and one that revealed can never vote again. */
  lemma StopKeepsVotersLockedOut(s: State, admin: Account, a: Account, now: nat, choice: nat, salt: seq<byte>)
    requires admin == s.admin
    requires s.VoterOf(a).registered
    ensures var t := EmergencyStop(s, admin).value;
      var u := StartRegistration(t, admin).value;
      && u.phase == REGISTRATION
      && u.totalVoters == s.totalVoters
      && RegisterVoter(u, a) == Err(AlreadyRegistered)
    ensures s.VoterOf(a).revealed ==>
      forall now', choice', salt' :: RevealVote(s, a, now', choice', salt').Err?
  {
  }

  /** Every state reached from a valid one by any sequence of transactions is valid. */
  lemma {:induction false} ApplyPreservesInvariant(s: State, txs: seq<Tx>)
    requires Invariant(s)
    ensures Invariant(Apply(s, txs))
    decreases |txs|
  {
    if txs != [] {
      var tx := txs[0];
      var r := Step(s, tx.sender, tx.now, tx.call);
      if r.Ok? {
        StepPreservesInvariant(s, r.value, tx.sender, tx.now, tx.call);
      }
      ApplyPreservesInvariant(if r.Ok? then r.value else s, txs[1..]);
    }
  }

  /** In every state the deployed application can reach, `total_votes` is the sum of the five
      counters and does not exceed `total_voters`. */
  lemma ReachableVotesConsistent(creator: Account, txs: seq<Tx>)
    ensures var s := Apply(Create(creator), txs);
      s.totalVotes == s.counts.Total() && s.totalVotes <= s.totalVoters && s.phase <= COMPLETED
  {
    CreateEstablishesInvariant(creator);
    ApplyPreservesInvariant(Create(creator), txs);
    VotesAtMostVoters(Apply(Create(creator), txs));
  }

  /** The six transactions of one voter's full round: the admin opens registration, the voter
      registers, the admin opens the commit phase, the voter commits `itob(choice) ++ salt`,
      the admin opens the reveal phase and the voter reveals the same pair. */
  function Round(admin: Account, a: Account, now: nat, choice: nat, salt: seq<byte>): seq<Tx>
    requires choice < UINT64_LIMIT
  {
    [ Tx(admin, now, StartRegistrationCall), Tx(a, now, RegisterVoterCall),
      Tx(admin, now, StartCommitPhaseCall), Tx(a, now, CommitVoteCall(ContractCommitment(choice, salt))),
      Tx(admin, now, StartRevealPhaseCall), Tx(a, now, RevealVoteCall(choice, salt)) ]
  }

  /** Applying a sequence whose first call succeeds continues from that call's result. */
  lemma ApplyStep(s: State, t: State, txs: seq<Tx>)
    requires txs != [] && Step(s, txs[0].sender, txs[0].now, txs[0].call) == Ok(t)
    ensures Apply(s, txs) == Apply(t, txs[1..])
  {
  }

  /** Applying six transactions that each succeed ends in the last call's result. */
  lemma ApplySix(s0: State, s1: State, s2: State, s3: State, s4: State, s5: State, s6: State, txs: seq<Tx>)
    requires |txs| == 6
    requires Step(s0, txs[0].sender, txs[0].now, txs[0].call) == Ok(s1)
    requires Step(s1, txs[1].sender, txs[1].now, txs[1].call) == Ok(s2)
    requires Step(s2, txs[2].sender, txs[2].now, txs[2].call) == Ok(s3)
    requires Step(s3, txs[3].sender, txs[3].now, txs[3].call) == Ok(s4)
    requires Step(s4, txs[4].sender, txs[4].now, txs[4].call) == Ok(s5)
    requires Step(s5, txs[5].sender, txs[5].now, txs[5].call) == Ok(s6)
    ensures Apply(s0, txs) == s6
  {
    ApplyStep(s0, s1, txs);
    ApplyStep(s1, s2, txs[1..]);
    ApplyStep(s2, s3, txs[2..]);
    ApplyStep(s3, s4, txs[3..]);
    ApplyStep(s4, s5, txs[4..]);
    ApplyStep(s5, s6, txs[5..]);
    assert txs[5..][1..] == [];
  }

  /** One account's commit-reveal round trip: run in time, every call of the round succeeds and the
      reveal counts one vote for `choice` and for no other option. */
  lemma CommitRevealRoundTrip(s0: State, admin: Account, a: Account, now: nat, choice: nat, salt: seq<byte>)
    requires Invariant(s0)
    requires s0.admin == admin && s0.phase == SETUP && !s0.VoterOf(a).registered
    requires now <= s0.commitDeadline
    requires choice < OPTION_COUNT
    ensures var t := Apply(s0, Round(admin, a, now, choice, salt));
      && t.phase == REVEAL
      && t.VoterOf(a).revealed && t.VoterOf(a).choice == choice
      && t.totalVotes == s0.totalVotes + 1
      && t.counts.Get(choice) == s0.counts.Get(choice) + 1
      && forall j :: 0 <= j < OPTION_COUNT && j != choice ==> t.counts.Get(j) == s0.counts.Get(j)
  {
    var txs := Round(admin, a, now, choice, salt);
    var h := ContractCommitment(choice, salt);
    assert !s0.VoterOf(a).revealed && !s0.VoterOf(a).committed by {
      if a in s0.voters {
        assert s0.voters[a] in s0.voters.Values;
      }
    }
    var s1 := StartRegistration(s0, admin).value;
    var s2 := RegisterVoter(s1, a).value;
    var s3 := StartCommitPhase(s2, admin).value;
    assert s3.VoterOf(a) == s0.VoterOf(a).(registered := true) && s3.commitDeadline == s0.commitDeadline;
    var s4 := CommitVote(s3, a, now, h).value;
    var s5 := StartRevealPhase(s4, admin).value;
    assert s5.VoterOf(a) == s0.VoterOf(a).(registered := true, committed := true, commitHash := h);
    assert s5.revealDeadline == s0.revealDeadline && s5.phase == REVEAL;
    var s6 := RevealVote(s5, a, now, choice, salt).value;
    ApplySix(s0, s1, s2, s3, s4, s5, s6, txs);
  }
}
