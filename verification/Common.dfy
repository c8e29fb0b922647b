/** Small datatypes and byte strings shared by the models. */
module Common {

  datatype Option<+T> = None | Some(value: T)

  type Byte = x: int | 0 <= x < 256

  type Bytes = seq<Byte>

  const NUL: char := '\0'

  /** The modem's prompt for an SMS PDU. */
  const PROMPT: string := "> "

  function Zeros(n: nat): (z: Bytes)
    ensures |z| == n
    ensures forall i :: 0 <= i < n ==> z[i] == 0
  {
    seq(n, _ => 0)
  }

  function OptLen<T>(o: Option<T>): nat {
    if o.Some? then 1 else 0
  }

  function OptSeq<T>(o: Option<T>): seq<T> {
    if o.Some? then [o.value] else []
  }

  /** `small` can be obtained from `big` by deleting elements. */
  ghost predicate Subsequence<T>(small: seq<T>, big: seq<T>) {
    if small == [] then true
    else if big == [] then false
    else if small[|small| - 1] == big[|big| - 1] && Subsequence(small[..|small| - 1], big[..|big| - 1]) then true
    else Subsequence(small, big[..|big| - 1])
  }

  lemma {:induction false} SubsequenceRefl<T>(s: seq<T>)
    ensures Subsequence(s, s)
  {
    if s != [] {
      SubsequenceRefl(s[..|s| - 1]);
    }
  }

  lemma {:induction false} SubsequenceTrans<T>(a: seq<T>, b: seq<T>, c: seq<T>)
    requires Subsequence(a, b) && Subsequence(b, c)
    ensures Subsequence(a, c)
    decreases |a| + |b| + |c|
  {
    if a != [] {
      var c' := c[..|c| - 1];
      if b[|b| - 1] == c[|c| - 1] && Subsequence(b[..|b| - 1], c') {
        var b' := b[..|b| - 1];
        if a[|a| - 1] == b[|b| - 1] && Subsequence(a[..|a| - 1], b') {
          SubsequenceTrans(a[..|a| - 1], b', c');
        } else {
          SubsequenceTrans(a, b', c');
        }
      } else {
        SubsequenceTrans(a, b, c');
      }
    }
  }

  /** Appending to the longer sequence, and to both, keeps the relation. */
  lemma {:induction false} SubsequenceAppend<T>(a: seq<T>, b: seq<T>, s: seq<T>)
    requires Subsequence(a, b)
    ensures Subsequence(a, b + s) && Subsequence(a + s, b + s)
    decreases |s|
  {
    if s == [] {
      assert a + s == a && b + s == b;
    } else {
      var s', x := s[..|s| - 1], s[|s| - 1];
      SubsequenceAppend(a, b, s');
      assert (b + s)[..|b + s| - 1] == b + s';
      assert (a + s)[..|a + s| - 1] == a + s';
      if a != [] && a[|a| - 1] == x {
        if Subsequence(a[..|a| - 1], b + s') {}
      }
    }
  }

  /** A suffix may be thinned independently of what stands before it. */
  lemma {:induction false} SubsequencePrepend<T>(p: seq<T>, a: seq<T>, b: seq<T>)
    requires Subsequence(a, b)
    ensures Subsequence(p + a, p + b)
    decreases |b|
  {
    if b == [] {
      assert a == [];
      assert p + a == p && p + b == p;
      SubsequenceRefl(p);
    } else {
      var b' := b[..|b| - 1];
      assert (p + b)[..|p + b| - 1] == p + b';
      if a == [] {
        SubsequencePrepend(p, a, b');
      } else if a[|a| - 1] == b[|b| - 1] && Subsequence(a[..|a| - 1], b') {
        SubsequencePrepend(p, a[..|a| - 1], b');
        assert (p + a)[..|p + a| - 1] == p + a[..|a| - 1];
      } else {
        SubsequencePrepend(p, a, b');
      }
    }
  }

  lemma Assoc<T>(a: seq<T>, b: seq<T>, c: seq<T>)
    ensures a + b + c == a + (b + c)
  {
  }

  lemma SliceOfTake<T>(f: seq<T>, n: nat, a: nat, b: nat)
    requires a <= b <= n <= |f|
    ensures f[..n][a..b] == f[a..b]
  {
  }

  lemma SliceOfSlice<T>(f: seq<T>, lo: nat, hi: nat, a: nat, b: nat)
    requires lo <= hi <= |f| && a <= b <= hi - lo
    ensures f[lo..hi][a..b] == f[lo + a..lo + b]
  {
    var s, u := f[lo..hi][a..b], f[lo + a..lo + b];
    assert |s| == |u|;
    forall i | 0 <= i < |s| ensures s[i] == u[i] {
      assert s[i] == f[lo..hi][a + i] == f[lo + (a + i)];
    }
  }
}
