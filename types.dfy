/** The shared vocabulary of the game: the three votes, the three swipe
    directions (src/lib/types.ts) and the per-type vote counters that the
    card stack and the rankings both keep. */
module Types {

  /** A value that may be missing: JavaScript's `null` / `undefined`. */
  datatype Option<+T> = None | Some(value: T)

  /** `"smash" | "pass" | "kill"` */
  datatype VoteType = Smash | Pass | Kill

  /** `"left" | "right" | "up"` */
  datatype SwipeDirection = Left | Right | Up

  /** The object `{ smash, pass, kill }` of counters, one per vote type. */
  datatype VoteCounts = VoteCounts(smash: nat, pass: nat, kill: nat) {

    /** `counts[type]` */
    function Get(t: VoteType): nat {
      match t
      case Smash => smash
      case Pass => pass
      case Kill => kill
    }

    function Sum(): nat {
      smash + pass + kill
    }

    /** `counts[type]++`: exactly the counter of `t` goes up by one. */
    function Inc(t: VoteType): (r: VoteCounts)
      ensures r.Get(t) == Get(t) + 1
      ensures forall u :: u != t ==> r.Get(u) == Get(u)
      ensures r.Sum() == Sum() + 1
    {
      match t
      case Smash => this.(smash := smash + 1)
      case Pass => this.(pass := pass + 1)
      case Kill => this.(kill := kill + 1)
    }
  }

  const NoVotes: VoteCounts := VoteCounts(0, 0, 0)
}
