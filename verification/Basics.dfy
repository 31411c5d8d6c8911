/** Names shared by every module: identifiers and the two usual wrappers. */
module Basics {

  /** Primary keys. A table that only grows is a sequence and a key is a position in it. */
  type Id = nat

  datatype Option<+T> = None | Some(value: T)

  datatype Result<+T, +E> = Ok(value: T) | Err(error: E)

  function Abs(x: int): nat {
    if x < 0 then -x else x
  }

  /** `k` is a key on which `rank` is smallest. */
  ghost predicate Smallest(keys: set<Id>, rank: map<Id, int>, k: Id)
    requires keys <= rank.Keys
  {
    k in keys && forall other :: other in keys ==> rank[k] <= rank[other]
  }

  lemma {:induction false} SmallestExists(keys: set<Id>, rank: map<Id, int>) returns (best: Id)
    requires keys != {} && keys <= rank.Keys
    ensures Smallest(keys, rank, best)
    decreases keys
  {
    var first :| first in keys;
    var rest := keys - {first};
    best := first;
    if rest != {} {
      var r := SmallestExists(rest, rank);
      if rank[r] < rank[first] {
        best := r;
      }
    }
    forall other | other in keys ensures rank[best] <= rank[other] {
      assert other == first || other in rest;
    }
  }

  /** An injective image is as large as its source. */
  lemma {:induction false} InjectiveImageFits(keys: set<Id>, image: map<Id, Id>, into: set<Id>)
    requires keys <= image.Keys && forall k :: k in keys ==> image[k] in into
    requires forall a, b :: a in keys && b in keys && image[a] == image[b] ==> a == b
    ensures |keys| <= |into|
    decreases keys
  {
    if keys != {} {
      var k :| k in keys;
      InjectiveImageFits(keys - {k}, image, into - {image[k]});
    }
  }
}
