/** The random values that select the hash functions. */
module RandVector {
  const LIMIT: nat := 100000

  function Prefix(draws: nat -> int, n: nat): seq<int> {
    seq(n, i requires 0 <= i => draws(i))
  }

  function Iota(n: nat): seq<int> {
    seq(n, i requires 0 <= i => i)
  }

  ghost predicate Distinct(s: seq<int>) {
    forall i, j :: 0 <= i < j < |s| ==> s[i] != s[j]
  }

  lemma DistinctPrefix(draws: nat -> int, n: nat)
    ensures Distinct(Prefix(draws, n)) <==> forall i, j :: 0 <= i < j < n ==> draws(i) != draws(j)
  {
    if Distinct(Prefix(draws, n)) {
      forall i, j | 0 <= i < j < n ensures draws(i) != draws(j) {
        assert Prefix(draws, n)[i] != Prefix(draws, n)[j];
      }
    }
  }

  /** The flag that records a repeated draw is only cleared after a draw is
      accepted, so a single repetition blocks every later draw: the result is
      the first no draws if and only if these are distinct (and fewer than the
      limit), and the fallback 0, 1, .. otherwise.  Both are distinct. */
  method CreateRandVector(no: nat, draws: nat -> int) returns (res: seq<int>)
    ensures |res| == no && forall i, j :: 0 <= i < j < no ==> res[i] != res[j]
    ensures no < 100000 && (forall i, j :: 0 <= i < j < no ==> draws(i) != draws(j))
        ==> forall i :: 0 <= i < no ==> res[i] == draws(i)
    ensures no >= 100000 || (exists i, j :: 0 <= i < j < no && draws(i) == draws(j))
        ==> forall i :: 0 <= i < no ==> res[i] == i
  {
    res := [];
    var i, sanity := 0, 0;
    var alreadyExists := false;
    while i < no && sanity < LIMIT
      invariant i == |res| <= no && sanity <= LIMIT
      invariant !alreadyExists ==> i == sanity && res == Prefix(draws, i) && Distinct(res)
      invariant alreadyExists ==> i < no && !Distinct(Prefix(draws, no))
      decreases LIMIT - sanity
    {
      var r := draws(sanity);
      sanity := sanity + 1;
      ghost var before := alreadyExists;
      for j := 0 to i
        invariant alreadyExists <==> before || r in res[..j]
      {
        if res[j] == r {
          alreadyExists := true;
        }
      }
      if !alreadyExists {
        res := res + [r];
        i := i + 1;
        alreadyExists := false;
      } else if !before {
        ghost var j :| 0 <= j < i && res[j] == r;
        assert Prefix(draws, no)[j] == Prefix(draws, no)[i];
      }
    }
    DistinctPrefix(draws, no);
    if sanity >= LIMIT {
      res := Iota(no);
    }
  }
}
