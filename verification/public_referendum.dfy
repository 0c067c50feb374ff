/** The referendum dashboard (`PublicReferendumDashboard`): registration and a single vote step
    that counts the vote at once, the hex "hash" of choice and salt, the newest-first transaction
    list, the timeline, and the announced winner. Each handler's delayed phase change is applied
    at once. */
module PublicReferendum {
  import opened Wrappers
  import opened Bytes
  import Utf8
  import Hex
  import ResultsDisplay
  import opened DashboardCommon

  /** `'registration' | 'voting' | 'completed'`. */
  datatype Phase = Registration | Voting | Completed

  function PhaseName(p: Phase): string
  {
    match p
    case Registration => "registration"
    case Voting => "voting"
    case Completed => "completed"
  }

  function PhaseRank(p: Phase): nat
  {
    match p
    case Registration => 0
    case Voting => 1
    case Completed => 2
  }

  /** The timeline's phase order. */
  function PhaseOrder(): seq<string>
  {
    ["registration", "voting", "completed"]
  }

  /** `generateHash`: the UTF-8 bytes of `choice + salt`, written as two lower-case hex digits
      each. It is an encoding, not a digest. */
  function GenerateHash(choice: string, salt: string): (h: string)
    ensures |h| == 2 * |Utf8.Encode(choice + salt)| && Hex.IsLowerHex(h)
  {
    Hex.Encode(Utf8.Encode(choice + salt))
  }

  /** Decoding the hex and then the UTF-8 gives back `choice + salt`. */
  lemma GenerateHashDecodes(choice: string, salt: string)
    ensures var bytes := Hex.Decode(GenerateHash(choice, salt));
      && bytes.Some?
      && Utf8.Decode(bytes.value) == Some(choice + salt)
  {
    Hex.DecodeEncode(Utf8.Encode(choice + salt));
    Utf8.DecodeEncode(choice + salt);
  }

  /** Equal hashes mean equal `choice + salt` texts; for ballot labels, which start with
      distinct letters, they mean the same ballot and the same salt. */
  lemma GenerateHashInjective(c1: string, s1: string, c2: string, s2: string)
    ensures GenerateHash(c1, s1) == GenerateHash(c2, s2) <==> c1 + s1 == c2 + s2
  {
    Hex.EncodeInjective(Utf8.Encode(c1 + s1), Utf8.Encode(c2 + s2));
    Utf8.EncodeInjective(c1 + s1, c2 + s2);
  }

  lemma BallotHashInjective(b1: Ballot, s1: string, b2: Ballot, s2: string)
    ensures GenerateHash(Label(b1), s1) == GenerateHash(Label(b2), s2) <==> b1 == b2 && s1 == s2
  {
    GenerateHashInjective(Label(b1), s1, Label(b2), s2);
    LabelInjective(b1, b2);
    if Label(b1) + s1 == Label(b2) + s2 {
      assert (Label(b1) + s1)[0] == Label(b1)[0] && (Label(b2) + s2)[0] == Label(b2)[0];
      assert b1 == b2;
      assert Label(b1) == (Label(b1) + s1)[..|Label(b1)|];
      assert s1 == (Label(b1) + s1)[|Label(b1)|..];
    }
  }

  /** The kinds of transaction the list records. */
  datatype TxKind = RegistrationTx | CommitTx | RevealTx | CompleteTx

  /** One listed transaction; its random id and timestamp are not modelled. */
  datatype Transaction = Transaction(kind: TxKind, hash: string, salt: Option<string>, from: string)

  /** `addTransaction`: the new entry goes in front, so the list reads newest first. */
  function AddTransaction(txs: seq<Transaction>, t: Transaction): (r: seq<Transaction>)
    ensures |r| == |txs| + 1 && r[0] == t && r[1..] == txs
  {
    [t] + txs
  }

  /** Adding several transactions lists them in reverse order of addition, before the old ones. */
  lemma {:induction false} AddTransactionsNewestFirst(txs: seq<Transaction>, added: seq<Transaction>)
    ensures AddAll(txs, added) == Reverse(added) + txs
    decreases |added|
  {
    if added != [] {
      var n := |added| - 1;
      AddTransactionsNewestFirst(txs, added[..n]);
      assert Reverse(added) == [added[n]] + Reverse(added[..n]);
    }
  }

  /** The list after adding `added`, first to last. */
  function AddAll(txs: seq<Transaction>, added: seq<Transaction>): seq<Transaction>
    decreases |added|
  {
    if added == [] then txs else AddTransaction(AddAll(txs, added[..|added| - 1]), added[|added| - 1])
  }

  function Reverse<T>(xs: seq<T>): seq<T>
    decreases |xs|
  {
    if xs == [] then [] else [xs[|xs| - 1]] + Reverse(xs[..|xs| - 1])
  }

  /** The component state; `storage` stands for `localStorage`. */
  datatype State = State(
    walletConnected: bool,
    userAddress: string,
    phase: Phase,
    isRegistered: bool,
    hasVoted: bool,
    voteChoice: Option<Ballot>,
    generatedSalt: string,
    voteHash: string,
    results: Tally,
    storage: map<string, string>,
    transactions: seq<Transaction>)

  /** `handleRegister`, with `txHash` the random transaction id: without a wallet nothing
      changes; otherwise registers, records a registration transaction and opens voting. */
  function HandleRegister(s: State, txHash: string): (r: State)
    ensures !s.walletConnected ==> r == s
    ensures s.walletConnected ==>
      && r.isRegistered && r.phase == Voting
      && r.transactions == AddTransaction(s.transactions, Transaction(RegistrationTx, txHash, None, s.userAddress))
      && r.results == s.results
  {
    if !s.walletConnected then s
    else s.(isRegistered := true,
            transactions := AddTransaction(s.transactions, Transaction(RegistrationTx, txHash, None, s.userAddress)),
            phase := Voting)
  }

  /** `handleVote`, with `random` the 32 salt bytes and `txHash` the random transaction id: needs
      a wallet and a selected choice; stores salt, choice and hash, records a commit transaction
      carrying the salt, counts the vote immediately and completes the referendum. */
  function HandleVote(s: State, random: seq<byte>, txHash: string): (r: State)
    requires |random| == 32
    ensures !s.walletConnected || s.voteChoice.None? ==> r == s
    ensures s.walletConnected && s.voteChoice.Some? ==>
      var b := s.voteChoice.value;
      var salt := SecureSalt(random);
      && r.hasVoted && r.phase == Completed
      && r.results == s.results.Bump(b)
      && r.voteHash == GenerateHash(Label(b), salt)
      && r.storage == s.storage["referendum_salt" := salt]["referendum_choice" := Label(b)]
                              ["referendum_hash" := GenerateHash(Label(b), salt)]
      && r.transactions == AddTransaction(s.transactions, Transaction(CommitTx, txHash, Some(salt), s.userAddress))
  {
    if !s.walletConnected then s
    else match s.voteChoice
      case None => s
      case Some(b) =>
        var salt := SecureSalt(random);
        var hash := GenerateHash(Label(b), salt);
        s.(generatedSalt := salt,
           voteHash := hash,
           storage := s.storage["referendum_salt" := salt]["referendum_choice" := Label(b)]["referendum_hash" := hash],
           hasVoted := true,
           transactions := AddTransaction(s.transactions, Transaction(CommitTx, txHash, Some(salt), s.userAddress)),
           results := s.results.Bump(b),
           phase := Completed)
  }

  /** A vote counts exactly one for the chosen option and nothing else, and its hash decodes to
      the chosen label followed by the salt. Nothing stops a second vote from counting again. */
  lemma VoteCountsOnce(s: State, random: seq<byte>, txHash: string)
    requires |random| == 32 && s.walletConnected && s.voteChoice.Some?
    ensures var r := HandleVote(s, random, txHash);
      && r.results.Get(s.voteChoice.value) == s.results.Get(s.voteChoice.value) + 1
      && (forall c :: c != s.voteChoice.value ==> r.results.Get(c) == s.results.Get(c))
      && Hex.Decode(r.voteHash).Some?
      && Utf8.Decode(Hex.Decode(r.voteHash).value) == Some(Label(s.voteChoice.value) + r.generatedSalt)
      && HandleVote(r, random, txHash).results.Total() == s.results.Total() + 2
  {
    var b := s.voteChoice.value;
    GenerateHashDecodes(Label(b), SecureSalt(random));
  }

  /** The timeline dot for `target` in this dashboard's state. */
  function DotActive(s: State, target: string): bool
  {
    TimelineDotActive(PhaseOrder(), PhaseName(s.phase), target)
  }

  /** A phase's dot is lit exactly when that phase is not later than the current one. */
  lemma DotActiveIffNotLater(s: State, target: Phase)
    ensures DotActive(s, PhaseName(target)) <==> PhaseRank(target) <= PhaseRank(s.phase)
  {
    var order := PhaseOrder();
    assert forall a, b :: 0 <= a < b < |order| ==> order[a] != order[b];
    assert order[PhaseRank(target)] == PhaseName(target);
    assert order[PhaseRank(s.phase)] == PhaseName(s.phase);
    TimelineDotActiveByPosition(order, PhaseRank(target), PhaseRank(s.phase), "", "");
  }

  /** The winner the outcome box announces: the reduction over the results entries, which in the
      order Yes, No, Abstain ends on the LAST maximal count. */
  function AnnouncedWinner(results: Tally): (w: string)
    ensures exists b :: w == Label(b) && (forall c :: results.Get(c) <= results.Get(b))
    ensures w == "Yes" ==> results.no < results.yes && results.abstain < results.yes
    ensures w == "No" ==> results.abstain < results.no
  {
    var es := results.Entries();
    var i := ResultsDisplay.WinnerIndex(es);
    assert es[i].0 == Label(if i == 0 then Yes else if i == 1 then No else Abstain);
    assert forall c :: results.Get(c) == es[if c == Yes then 0 else if c == No then 1 else 2].1;
    assert es[0].1 == results.yes && es[1].1 == results.no && es[2].1 == results.abstain;
    assert i == 0 ==> es[1].1 < es[0].1 && es[2].1 < es[0].1;
    assert i == 1 ==> es[2].1 < es[1].1;
    assert es[i].0 == "Yes" ==> i == 0;
    assert es[i].0 == "No" ==> i == 1;
    es[i].0
  }

  /** Ties go to the option listed last: with no votes at all, or with every option level,
      "Abstain" is announced; "Abstain" also wins a tie at the top with either other option, and
      a tie between "Yes" and "No" alone goes to "No". */
  lemma TiesGoToLast(n: nat, m: nat)
    requires m < n
    ensures AnnouncedWinner(Tally(n, n, n)) == "Abstain"
    ensures AnnouncedWinner(Tally(n, m, n)) == "Abstain"
    ensures AnnouncedWinner(Tally(m, n, n)) == "Abstain"
    ensures AnnouncedWinner(Tally(n, n, m)) == "No"
  {
    ResultsDisplay.WinnerIsLastMaximum(Tally(n, n, n).Entries(), 2);
    ResultsDisplay.WinnerIsLastMaximum(Tally(n, m, n).Entries(), 2);
    ResultsDisplay.WinnerIsLastMaximum(Tally(m, n, n).Entries(), 2);
    ResultsDisplay.WinnerIsLastMaximum(Tally(n, n, m).Entries(), 1);
  }

  /** The announced winner is pinned down by the counts alone: "Yes" only when it leads both
      others strictly, "No" when it is at least "Yes" and strictly ahead of "Abstain", and
      "Abstain" whenever it is at least both others. */
  lemma AnnouncedWinnerIsLastMaximum(results: Tally)
    ensures AnnouncedWinner(results) == "Yes" <==> results.no < results.yes && results.abstain < results.yes
    ensures AnnouncedWinner(results) == "No" <==> results.yes <= results.no && results.abstain < results.no
    ensures AnnouncedWinner(results) == "Abstain" <==> results.yes <= results.abstain && results.no <= results.abstain
  {
    var w := AnnouncedWinner(results);
    var b :| w == Label(b) && (forall c :: results.Get(c) <= results.Get(b));
    assert results.Get(Yes) == results.yes && results.Get(No) == results.no && results.Get(Abstain) == results.abstain;
  }
}
