/** The poll record the dashboards render and the admin panel edits (`Poll`), with the five
    phase names the frontend uses. */
module PollView {
  import opened Wrappers

  /** `'registration' | 'commit' | 'reveal' | 'tally' | 'completed'`. */
  datatype UiPhase = Registration | Commit | Reveal | Tally | Completed

  /** The position of a phase in the frontend's list of phase names. */
  function Index(p: UiPhase): (i: nat)
    ensures i < 5
  {
    match p
    case Registration => 0
    case Commit => 1
    case Reveal => 2
    case Tally => 3
    case Completed => 4
  }

  /** Distinct phases sit at distinct positions. */
  lemma IndexInjective(p: UiPhase, q: UiPhase)
    ensures Index(p) == Index(q) <==> p == q
  {
  }

  /** One poll as the frontend holds it; times are milliseconds since the epoch. */
  datatype Poll = Poll(
    id: string,
    title: string,
    description: string,
    options: seq<string>,
    phase: UiPhase,
    startMs: int,
    commitEndMs: int,
    revealEndMs: int,
    totalVotes: nat,
    results: Option<map<string, nat>>,
    isRegistered: bool,
    hasCommitted: bool,
    hasRevealed: bool)
}
