/** What several modules need: optional values, and lists without repetition. */
module Common {
  datatype Option<T> = None | Some(value: T)

  ghost predicate NoRepeat<T>(s: seq<T>) {
    s == [] || (s[0] !in s[1..] && NoRepeat(s[1..]))
  }

  lemma NoRepeatPush<T>(s: seq<T>, x: T)
    requires NoRepeat(s) && x !in s
    ensures NoRepeat([x] + s)
  {
    assert ([x] + s)[1..] == s;
  }

  lemma {:induction false} NoRepeatJoin<T>(a: seq<T>, b: seq<T>)
    requires NoRepeat(a) && NoRepeat(b) && forall x <- b :: x !in a
    ensures NoRepeat(a + b)
  {
    if a == [] {
      assert a + b == b;
    } else {
      assert (a + b)[1..] == a[1..] + b && a == [a[0]] + a[1..];
      NoRepeatJoin(a[1..], b);
    }
  }

  lemma NoRepeatSnoc<T>(s: seq<T>, x: T)
    requires NoRepeat(s) && x !in s
    ensures NoRepeat(s + [x])
  {
    assert [x][1..] == [];
    NoRepeatJoin(s, [x]);
  }

  lemma {:induction false} TailNoRepeat<T>(a: seq<T>, b: seq<T>)
    requires NoRepeat(a + b)
    ensures NoRepeat(b) && forall x <- b :: x !in a
  {
    if a == [] {
      assert a + b == b;
    } else {
      assert (a + b)[1..] == a[1..] + b;
      TailNoRepeat(a[1..], b);
      assert forall x <- b :: x in (a + b)[1..];
      assert a == [a[0]] + a[1..];
    }
  }

  lemma {:induction false} NoRepeatAt<T>(s: seq<T>, i: nat)
    requires NoRepeat(s) && i < |s|
    ensures s[i] !in s[..i]
  {
    if i > 0 {
      NoRepeatAt(s[1..], i - 1);
      assert s[1..][..i - 1] == s[1..i];
      assert s[..i] == [s[0]] + s[1..i];
    }
  }

  /** The list without the first x. */
  function Without<T(==)>(s: seq<T>, x: T): (r: seq<T>) {
    if s == [] then [] else if s[0] == x then s[1..] else [s[0]] + Without(s[1..], x)
  }

  lemma {:induction false} WithoutKeeps<T>(s: seq<T>, x: T)
    requires NoRepeat(s)
    ensures NoRepeat(Without(s, x))
    ensures forall y :: y in Without(s, x) <==> y in s && y != x
  {
    if s != [] {
      assert s == [s[0]] + s[1..];
      WithoutKeeps(s[1..], x);
      assert ([s[0]] + Without(s[1..], x))[1..] == Without(s[1..], x);
    }
  }

  lemma {:induction false} WithoutAt<T>(s: seq<T>, i: nat)
    requires i < |s| && forall j | 0 <= j < i :: s[j] != s[i]
    ensures Without(s, s[i]) == s[..i] + s[i + 1..]
  {
    if i > 0 {
      WithoutAt(s[1..], i - 1);
      assert s[..i] + s[i + 1..] == [s[0]] + (s[1..][..i - 1] + s[1..][i..]);
    }
  }

  lemma {:induction false} WithoutAbsent<T>(s: seq<T>, x: T)
    requires x !in s
    ensures Without(s, x) == s
  {
    if s != [] {
      WithoutAbsent(s[1..], x);
    }
  }
}
