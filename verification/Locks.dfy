/**
 Facts that only a few proofs look into are stated under a key, as

     forall key {:trigger Open(key)} :: Key(key) ==> P

 which says no more and no less than P.  The solver unfolds P only where a proof mentions Open.
 */
module Locks {

  ghost predicate Key(key: bool) {
    true
  }

  ghost predicate Open(key: bool) {
    true
  }
}
