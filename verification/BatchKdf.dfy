/** Deriving symmetric keys in a batch: missing secrets are dropped, the others normalized in one
array and put back in their places. */
module BatchKdf {
  import opened Wrappers
  import opened Bytes

  /** Normalization to affine coordinates and the key derivation hash. */
  datatype Kdf<!P, !A> = Kdf(toAffine: P -> A, identity: A, hash: (A, seq<byte>) -> seq<byte>) {
    // The key of a single item.
    function Single(secret: P, ephemeralKey: seq<byte>): seq<byte> {
      hash(toAffine(secret), ephemeralKey)
    }
  }

  function Normalized<P, A>(k: Kdf<P, A>, secret: Option<P>): Option<A> {
    match secret case None => None case Some(s) => Some(k.toAffine(s))
  }

  function Present<P>(secrets: seq<Option<P>>, n: nat): seq<P>
    requires n <= |secrets|
  {
    if n == 0 then []
    else if secrets[n - 1].Some? then Present(secrets, n - 1) + [secrets[n - 1].value] else Present(secrets, n - 1)
  }

  lemma {:induction false} PresentGrows<P>(secrets: seq<Option<P>>, m: nat, n: nat)
    requires m <= n <= |secrets|
    ensures Present(secrets, m) <= Present(secrets, n)
  {
    if m < n { PresentGrows(secrets, m, n - 1); }
  }

  method FilterPresent<P>(secrets: seq<Option<P>>) returns (r: seq<P>)
    ensures r == Present(secrets, |secrets|)
  {
    r := [];
    for i := 0 to |secrets|
      invariant r == Present(secrets, i)
    {
      match secrets[i] {
        case Some(s) => r := r + [s];
        case None =>
      }
    }
  }

  // One pass over the array; the shared inversion is not part of this model.
  method BatchNormalize<P, A>(k: Kdf<P, A>, secrets: seq<P>, affine: array<A>)
    requires affine.Length == |secrets|
    modifies affine
    ensures forall i: nat | i < |secrets| :: affine[i] == k.toAffine(secrets[i])
  {
    for i := 0 to |secrets|
      invariant forall j: nat | j < i :: affine[j] == k.toAffine(secrets[j])
    {
      affine[i] := k.toAffine(secrets[i]);
    }
  }

  // Every present position consumes the next normalized secret.
  method BatchToAffine<P, A>(k: Kdf<P, A>, secrets: seq<Option<P>>) returns (r: seq<Option<A>>)
    ensures |r| == |secrets|
    ensures forall i: nat | i < |secrets| :: r[i] == Normalized(k, secrets[i])
  {
    var present := FilterPresent(secrets);
    var affine := new A[|present|](_ => k.identity);
    BatchNormalize(k, present, affine);
    var normalized := affine[..];
    var next := 0;
    r := [];
    for i := 0 to |secrets|
      invariant |r| == i && next == |Present(secrets, i)|
      invariant forall j: nat | j < i :: r[j] == Normalized(k, secrets[j])
    {
      PresentGrows(secrets, i + 1, |secrets|);
      match secrets[i] {
        case None => r := r + [None];
        case Some(s) =>
          assert present[next] == Present(secrets, i + 1)[next] == s;
          r := r + [Some(normalized[next])];
          next := next + 1;
      }
    }
  }

  /** The batch gives every position the key of the single derivation, and nothing exactly where there
  was no secret. */
  method BatchDerive<P, A>(k: Kdf<P, A>, items: seq<(Option<P>, seq<byte>)>) returns (r: seq<Option<seq<byte>>>)
    ensures |r| == |items|
    ensures forall i: nat | i < |items| ::
              r[i] == match items[i].0 case None => None case Some(s) => Some(k.Single(s, items[i].1))
  {
    var secrets := seq(|items|, i requires 0 <= i < |items| => items[i].0);
    var affine := BatchToAffine(k, secrets);
    r := [];
    for i := 0 to |items|
      invariant |r| == i
      invariant forall j: nat | j < i :: r[j] == match items[j].0 case None => None case Some(s) => Some(k.Single(s, items[j].1))
    {
      assert secrets[i] == items[i].0;
      match affine[i] {
        case None => r := r + [None];
        case Some(a) => r := r + [Some(k.hash(a, items[i].1))];
      }
    }
  }
}
