/** The embedding wrapper that cuts the vectors of a Matryoshka-style model down
    to the configured number of dimensions. Only list slicing is involved, so the
    vector entries are of any type `T`. What the wrapped embedder returns comes in
    as a value. */
module TruncateEmbedder {

  /** What the wrapped embedder returned: a list whose first entry is a number (one
      vector), a list whose first entry is a list (a batch), or anything else. An
      empty list is `Single([])` or `Batch([])`, which are the same Python value. */
  datatype Embeddings<T> = Single(vector: seq<T>) | Batch(vectors: seq<seq<T>>) | Unrecognised

  /** `embed` returns a value, or fails on `embeddings[0]` of an empty list. */
  datatype EmbedResult<T> = Embedded(value: Embeddings<T>) | IndexError

  /** `v[:n]` for any integer `n`: a negative `n` counts from the end. */
  function Prefix<T>(v: seq<T>, n: int): (r: seq<T>)
    ensures |r| <= |v| && r == v[..|r|]
    ensures 0 <= n ==> |r| == if n < |v| then n else |v|
  {
    if n >= 0 then (if n < |v| then v[..n] else v)
    else if |v| + n > 0 then v[..|v| + n] else []
  }

  /** One vector: cut when longer than `target`, otherwise returned as it is. */
  function Truncate<T>(v: seq<T>, target: int): (r: seq<T>)
    ensures |v| <= target ==> r == v
    ensures 0 <= target < |v| ==> |r| == target && r == v[..target]
  {
    if |v| > target then Prefix(v, target) else v
  }

  /** With a non-negative target, every vector comes out with
      `min(len, target)` entries, as a prefix of the input. */
  lemma TruncateLength<T>(v: seq<T>, target: int)
    requires 0 <= target
    ensures var r := Truncate(v, target);
      |r| == (if |v| < target then |v| else target) && r == v[..|r|]
  {
  }

  /** Cutting again changes nothing. */
  lemma TruncateIdempotent<T>(v: seq<T>, target: int)
    requires 0 <= target
    ensures Truncate(Truncate(v, target), target) == Truncate(v, target)
  {
  }

  /** The value `embed` returns for the embedder's output `e`. */
  function EmbedOf<T>(e: Embeddings<T>, target: int): (r: EmbedResult<T>)
    ensures r.IndexError? <==> e == Single([]) || e == Batch([])
    ensures e.Unrecognised? ==> r == Embedded(e)
  {
    match e
    case Single(v) => if v == [] then IndexError else Embedded(Single(Truncate(v, target)))
    case Batch(vs) =>
      if vs == [] then IndexError
      else Embedded(Batch(seq(|vs|, i requires 0 <= i < |vs| => Truncate(vs[i], target))))
    case Unrecognised => Embedded(e)
  }

  /** `embed` applied to its own result gives that result back. A target of 0
      is excluded: it turns a vector into `[]`, on which a second call fails. */
  lemma EmbedIdempotent<T>(e: Embeddings<T>, target: int)
    requires 0 < target && EmbedOf(e, target).Embedded?
    ensures EmbedOf(EmbedOf(e, target).value, target) == EmbedOf(e, target)
  {
    var x := EmbedOf(e, target).value;
    match e
    case Single(v) =>
      TruncateIdempotent(v, target);
    case Batch(vs) =>
      forall i | 0 <= i < |vs| ensures Truncate(x.vectors[i], target) == x.vectors[i] {
        TruncateIdempotent(vs[i], target);
      }
    case Unrecognised =>
  }

  /** `TruncateEmbedder.embed(text)`: `e` is what the wrapped embedder returned
      for `text`, `target` is `target_dims`. */
  method Embed<T>(e: Embeddings<T>, target: int) returns (r: EmbedResult<T>)
    ensures r == EmbedOf(e, target)
    ensures e.Batch? && r.Embedded? ==>
      r.value.Batch? && |r.value.vectors| == |e.vectors|
      && forall i :: 0 <= i < |e.vectors| ==>
           r.value.vectors[i] == if |e.vectors[i]| > target then Prefix(e.vectors[i], target) else e.vectors[i]
  {
    match e {
      case Single(v) =>
        if v == [] {
          return IndexError;
        }
        if |v| > target {
          return Embedded(Single(Prefix(v, target)));
        }
        return Embedded(e);
      case Batch(vs) =>
        if vs == [] {
          return IndexError;
        }
        var truncated: seq<seq<T>> := [];
        for i := 0 to |vs|
          invariant |truncated| == i
          invariant forall j :: 0 <= j < i ==> truncated[j] == Truncate(vs[j], target)
        {
          if |vs[i]| > target {
            truncated := truncated + [Prefix(vs[i], target)];
          } else {
            truncated := truncated + [vs[i]];
          }
        }
        assert truncated == seq(|vs|, i requires 0 <= i < |vs| => Truncate(vs[i], target));
        return Embedded(Batch(truncated));
      case Unrecognised =>
        return Embedded(e);
    }
  }
}
