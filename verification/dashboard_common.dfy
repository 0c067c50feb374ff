/** What the two self-contained dashboards (`ProductionVotingDashboard` and
    `PublicReferendumDashboard`) share: the three-way ballot with its tally, the generated salt,
    and the rule that colours the phase timeline. */
module DashboardCommon {
  import opened Wrappers
  import opened Bytes
  import opened JsText
  import Hex

  /** The non-empty values of the vote `<select>`; the empty value is modelled as `None`. */
  datatype Ballot = Yes | No | Abstain

  /** The select value, which is also the key of the results object. */
  function Label(b: Ballot): (s: string)
    ensures s != ""
  {
    match b
    case Yes => "Yes"
    case No => "No"
    case Abstain => "Abstain"
  }

  /** Distinct ballots have distinct labels, of distinct lengths. */
  lemma LabelInjective(a: Ballot, b: Ballot)
    ensures |Label(a)| == |Label(b)| <==> a == b
    ensures Label(a) == Label(b) <==> a == b
  {
  }

  /** The results object `{ Yes, No, Abstain }`. */
  datatype Tally = Tally(yes: nat, no: nat, abstain: nat)
  {
    function Get(b: Ballot): nat
    {
      match b
      case Yes => yes
      case No => no
      case Abstain => abstain
    }

    function Total(): nat
    {
      yes + no + abstain
    }

    /** `{ ...prev, [choice]: prev[choice] + 1 }`. */
    function Bump(b: Ballot): (t: Tally)
      ensures t.Get(b) == Get(b) + 1
      ensures forall c :: c != b ==> t.Get(c) == Get(c)
      ensures t.Total() == Total() + 1
    {
      match b
      case Yes => this.(yes := yes + 1)
      case No => this.(no := no + 1)
      case Abstain => this.(abstain := abstain + 1)
    }

    /** `Object.entries(results)`, in declaration order. */
    function Entries(): (es: seq<(string, nat)>)
      ensures |es| == 3
      ensures forall b :: (Label(b), Get(b)) in es
    {
      [("Yes", yes), ("No", no), ("Abstain", abstain)]
    }
  }

  /** `generateSecureSalt` applied to the 32 bytes `crypto.getRandomValues` produced: 64
      lower-case hex digits that decode back to those bytes. */
  function SecureSalt(random: seq<byte>): (s: string)
    requires |random| == 32
    ensures |s| == 64 && Hex.IsLowerHex(s)
    ensures Hex.Decode(s) == Some(random)
  {
    Hex.DecodeEncode(random);
    Hex.Encode(random)
  }

  /** `getTimelineDotColor`: a dot is lit when the target's position in the phase order is at or
      before the current phase's (`indexOf`, -1 for a name not in the list). */
  function TimelineDotActive(order: seq<string>, current: string, target: string): (lit: bool)
    ensures target == current ==> lit
    ensures target !in order ==> lit
    ensures target in order && current !in order ==> !lit
  {
    IndexOf(order, target) <= IndexOf(order, current)
  }

  /** For an order without repeats, the dot at position `i` is lit exactly when `i` is at or
      before the current position `k`; a name outside the order is always lit, and for a current
      phase outside the order only such names are. */
  lemma TimelineDotActiveByPosition(order: seq<string>, i: nat, k: nat, current: string, target: string)
    requires forall a, b :: 0 <= a < b < |order| ==> order[a] != order[b]
    requires i < |order| && k < |order|
    ensures TimelineDotActive(order, order[k], order[i]) <==> i <= k
    ensures target !in order ==> TimelineDotActive(order, current, target)
    ensures current !in order ==> (TimelineDotActive(order, current, target) <==> target !in order)
  {
    assert IndexOf(order, order[i]) == i;
    assert IndexOf(order, order[k]) == k;
  }
}
