/** Vocabulary shared by all modules: optional values, results, and lists without repetition. */
module Common {
  // Row, node and workspace identifiers. The system uses UUIDs; only equality and a total order matter here.
  type Id = nat

  datatype Option<+T> = None | Some(value: T)

  datatype Result<+T, +E> = Ok(value: T) | Err(error: E)

  ghost predicate Distinct<T>(s: seq<T>) {
    forall i, j :: 0 <= i < j < |s| ==> s[i] != s[j]
  }

  function Elements<T>(s: seq<T>): set<T> {
    set x | x in s
  }

  // A requested index forced into 0..n.
  function Clamp(p: int, n: nat): (r: nat)
    ensures 0 <= p <= n ==> r == p
    ensures p < 0 ==> r == 0
    ensures p > n ==> r == n
  {
    if p < 0 then 0 else if p > n then n else p
  }

  function Inserted<T>(s: seq<T>, x: T, at: nat): (r: seq<T>)
    requires at <= |s|
    ensures |r| == |s| + 1 && r[at] == x
  {
    s[..at] + [x] + s[at..]
  }

  lemma EmptyOrInhabited<T>(s: seq<T>)
    ensures s == [] || exists x :: x in s
  {
    if s != [] {
      assert s[0] in s;
    }
  }

  // The list with every occurrence of x dropped.
  function Without<T(==, !new)>(s: seq<T>, x: T): (r: seq<T>)
    ensures x !in r
    ensures forall y :: y in r <==> y in s && y != x
    ensures x !in s ==> r == s
  {
    if s == [] then []
    else if s[0] == x then Without(s[1..], x)
    else
      assert s == [s[0]] + s[1..];
      [s[0]] + Without(s[1..], x)
  }

  lemma {:induction false} WithoutConcat<T(!new)>(a: seq<T>, b: seq<T>, x: T)
    ensures Without(a + b, x) == Without(a, x) + Without(b, x)
  {
    if a == [] {
      assert a + b == b;
    } else {
      assert (a + b)[1..] == a[1..] + b;
      WithoutConcat(a[1..], b, x);
    }
  }

  lemma DropOneDistinct<T>(s: seq<T>, i: nat)
    requires i < |s| && Distinct(s)
    ensures Distinct(s[..i] + s[i + 1..])
  {
    var r := s[..i] + s[i + 1..];
    assert forall k | 0 <= k < |r| :: r[k] == s[if k < i then k else k + 1];
  }

  lemma DropOneCons<T>(h: T, t: seq<T>, i: nat)
    requires i < |t|
    ensures [h] + (t[..i] + t[i + 1..]) == ([h] + t)[..i + 1] + ([h] + t)[i + 2..]
  {
  }

  lemma {:induction false} WithoutAt<T(!new)>(s: seq<T>, i: nat)
    requires i < |s| && Distinct(s)
    ensures Without(s, s[i]) == s[..i] + s[i + 1..]
    ensures Distinct(Without(s, s[i]))
  {
    var h, t := s[0], s[1..];
    assert s == [h] + t;
    DropOneDistinct(s, i);
    if i == 0 {
      assert h !in t;
      assert s[..0] + s[1..] == t;
    } else {
      assert t[i - 1] == s[i] && h != s[i];
      WithoutAt(t, i - 1);
      DropOneCons(h, t, i - 1);
    }
  }

  lemma WithoutDistinct<T(!new)>(s: seq<T>, x: T)
    requires Distinct(s)
    ensures Distinct(Without(s, x))
    ensures |Without(s, x)| == if x in s then |s| - 1 else |s|
  {
    if x in s {
      var i :| 0 <= i < |s| && s[i] == x;
      WithoutAt(s, i);
    }
  }

  lemma InsertedDistinct<T(!new)>(s: seq<T>, x: T, at: nat)
    requires Distinct(s) && x !in s && at <= |s|
    ensures Distinct(Inserted(s, x, at))
    ensures forall y :: y in Inserted(s, x, at) <==> y in s || y == x
    ensures Without(Inserted(s, x, at), x) == s
  {
    var r := Inserted(s, x, at);
    WithoutAt(r, at);
    assert r[..at] + r[at + 1..] == s;
  }

  // Putting an element of a list back where it stood restores the list.
  lemma ReinsertAtOwnIndex<T(!new)>(s: seq<T>, i: nat)
    requires i < |s| && Distinct(s)
    ensures |Without(s, s[i])| == |s| - 1
    ensures Inserted(Without(s, s[i]), s[i], i) == s
  {
    WithoutAt(s, i);
    var rest := s[..i] + s[i + 1..];
    assert rest[..i] == s[..i] && rest[i..] == s[i + 1..];
  }
}
