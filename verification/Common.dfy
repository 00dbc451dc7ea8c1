/** Small vocabulary shared by the other modules. */
module Common {
  datatype Option<+T> = None | Some(value: T)

  // Return codes of the C sources (errno.h values, negated by the callers).
  const EAGAIN := 11
  const EFAULT := 14
  const EINVAL := 22

  function Min(a: int, b: int): int {
    if a <= b then a else b
  }

  /** The first n elements of s, or all of s when it is shorter. */
  function Take<T>(s: seq<T>, n: nat): seq<T> {
    if n <= |s| then s[..n] else s
  }

  /** Reading at most room elements from a queue that is first fed what was brought. */
  function ReadQueue<T>(queue: seq<T>, brought: seq<T>, room: nat): (res: (seq<T>, seq<T>))
    ensures |res.0| == Min(room, |queue| + |brought|) && res.0 + res.1 == queue + brought
  {
    var all := queue + brought;
    (all[..Min(room, |all|)], all[Min(room, |all|)..])
  }

  /** An array that was `before` and has had the elements of out stored from index at on. */
  ghost predicate StoredAt<T>(before: seq<T>, now: seq<T>, at: nat, out: seq<T>) {
    at + |out| <= |before| && now == before[..at] + out + before[at + |out|..]
  }

  lemma StoredWhere<T>(before: seq<T>, now: seq<T>, at: nat, out: seq<T>)
    requires |now| == |before| && at + |out| <= |before|
    requires forall k :: 0 <= k < |now| ==> now[k] == if at <= k < at + |out| then out[k - at] else before[k]
    ensures StoredAt(before, now, at, out)
  {
  }

  lemma StoredNothing<T>(s: seq<T>, at: nat)
    requires at <= |s|
    ensures StoredAt(s, s, at, [])
  {
  }

  lemma StoredMore<T>(s: seq<T>, t: seq<T>, u: seq<T>, at: nat, out: seq<T>, more: seq<T>)
    requires StoredAt(s, t, at, out) && StoredAt(t, u, at + |out|, more)
    ensures StoredAt(s, u, at, out + more)
  {
  }

  lemma ThreePieces<T>(a: seq<T>, b: seq<T>, c: seq<T>)
    ensures (a + b) + c == a + (b + c)
  {
  }
}
