/** Values shared by every module: optional values, the exceptions the
    modelled Python code raises or yields, and the streams its generators
    produce. */
module Streams {

  datatype Option<+T> = None | Some(value: T)

  /** The Python exception classes the modelled code raises or passes on. */
  datatype ErrorKind =
    | AssertionError
    | RuntimeError
    | ValueError
    | KeyError
    | TypeError
    | AttributeError
    | UnicodeError
    | OSError

  /** An exception: its class and `str(e)`. */
  datatype Error = Error(kind: ErrorKind, text: string)

  /** A value, or the exception raised instead of producing it.  Also the
      `Res[T]` elements of the streams that yield exceptions as values. */
  datatype Result<+T> = Ok(value: T) | Err(error: Error)

  /** What a Python generator produced when run to its end: the items it
      yielded, then, if it stopped by raising, the exception it raised. */
  datatype Run<+T> = Run(items: seq<T>, failure: Option<Error>)

  function Done<T>(items: seq<T>): Run<T> { Run(items, None) }

  function Raise<T>(e: Error): Run<T> { Run([], Some(e)) }

  /** `yield from a` followed by `yield from b`: `b` only runs when `a`
      finished without raising. */
  function Then<T>(a: Run<T>, b: Run<T>): Run<T>
  {
    if a.failure.Some? then a else Run(a.items + b.items, b.failure)
  }

  /** `yield x` followed by `yield from r`. */
  function Cons<T>(x: T, r: Run<T>): Run<T>
  {
    Run([x] + r.items, r.failure)
  }

  /** `Run(out + r.items, r.failure)`: `out` yielded before `r`. */
  function Prepend<T>(out: seq<T>, r: Run<T>): Run<T>
  {
    Run(out + r.items, r.failure)
  }

  /** What a loop that has already yielded `out` yields when it goes on
      with `yield from a` and then `yield from b`. */
  lemma PrependThen<T>(out: seq<T>, a: Run<T>, b: Run<T>)
    ensures Prepend(out, Then(a, b)) == if a.failure.Some? then Prepend(out, a) else Prepend(out + a.items, b)
  {
  }

  lemma AppendAssoc<T>(a: seq<T>, b: seq<T>, c: seq<T>)
    ensures (a + b) + c == a + (b + c)
  {
  }

  /** The elements of `s` that satisfy `p`, in order (a Python comprehension
      with an `if`). */
  function Filter<T>(s: seq<T>, p: T -> bool): seq<T>
  {
    if s == [] then [] else (if p(s[0]) then [s[0]] else []) + Filter(s[1..], p)
  }

  /** The position of the first element of `s` that satisfies `p`, if any. */
  function FirstIndex<T>(s: seq<T>, p: T -> bool): (r: Option<nat>)
    ensures r.None? <==> forall x :: x in s ==> !p(x)
    ensures r.Some? ==> r.value < |s| && p(s[r.value])
    ensures r.Some? ==> forall j :: 0 <= j < r.value ==> !p(s[j])
  {
    if s == [] then None
    else if p(s[0]) then Some(0)
    else
      assert forall x :: x in s ==> x == s[0] || x in s[1..];
      match FirstIndex(s[1..], p)
      case None => None
      case Some(i) =>
        assert forall j :: 1 <= j <= i ==> s[j] == s[1..][j - 1];
        Some(i + 1)
  }

  /** `f` applied to every element of `s`, in order. */
  function MapSeq<T, U>(s: seq<T>, f: T -> U): (r: seq<U>)
    ensures |r| == |s|
    ensures forall i :: 0 <= i < |s| ==> r[i] == f(s[i])
  {
    if s == [] then [] else [f(s[0])] + MapSeq(s[1..], f)
  }

  /** Concatenation of a sequence of sequences. */
  function Flatten<T>(ss: seq<seq<T>>): seq<T>
  {
    if ss == [] then [] else ss[0] + Flatten(ss[1..])
  }

  lemma {:induction false} FilterSubset<T>(s: seq<T>, p: T -> bool)
    ensures |Filter(s, p)| <= |s|
    ensures forall x :: x in Filter(s, p) <==> x in s && p(x)
  {
    if s != [] {
      FilterSubset(s[1..], p);
      assert s == [s[0]] + s[1..];
    }
  }

  lemma {:induction false} FilterAppend<T>(a: seq<T>, b: seq<T>, p: T -> bool)
    ensures Filter(a + b, p) == Filter(a, p) + Filter(b, p)
  {
    if a == [] {
      assert a + b == b;
    } else {
      var head := if p(a[0]) then [a[0]] else [];
      assert (a + b)[0] == a[0];
      assert (a + b)[1..] == a[1..] + b;
      assert Filter(a + b, p) == head + Filter(a[1..] + b, p);
      FilterAppend(a[1..], b, p);
      assert Filter(a, p) == head + Filter(a[1..], p);
    }
  }

  lemma {:induction false} FilterAll<T>(s: seq<T>, p: T -> bool)
    requires forall x :: x in s ==> p(x)
    ensures Filter(s, p) == s
  {
    if s != [] {
      FilterAll(s[1..], p);
    }
  }

  lemma MapSeqAppend<T, U>(a: seq<T>, b: seq<T>, f: T -> U)
    ensures MapSeq(a + b, f) == MapSeq(a, f) + MapSeq(b, f)
  {
    assert |MapSeq(a + b, f)| == |MapSeq(a, f) + MapSeq(b, f)|;
    forall i | 0 <= i < |a + b| ensures MapSeq(a + b, f)[i] == (MapSeq(a, f) + MapSeq(b, f))[i] {
      if i < |a| { assert (a + b)[i] == a[i]; } else { assert (a + b)[i] == b[i - |a|]; }
    }
  }
}
