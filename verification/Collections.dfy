/** Options, and the flattening, filtering and mapping of sequences that the
    compiler's nested loops compute. */
module Collections {

  datatype Option<+T> = None | Some(value: T)

  /** The concatenation of `f(s[0])`, `f(s[1])`, ..., which is what a loop that
      appends `f(x)` for every `x` of `s` produces. */
  function FlatMap<A, B>(f: A -> seq<B>, s: seq<A>): seq<B> {
    if s == [] then [] else FlatMap(f, s[..|s| - 1]) + f(s[|s| - 1])
  }

  /** One more iteration of the loop. */
  lemma FlatMapStep<A, B>(f: A -> seq<B>, s: seq<A>, i: nat)
    requires i < |s|
    ensures FlatMap(f, s[..i + 1]) == FlatMap(f, s[..i]) + f(s[i])
  {
    assert s[..i + 1][..i] == s[..i];
  }

  lemma FlatMapAll<A, B>(f: A -> seq<B>, s: seq<A>)
    ensures FlatMap(f, s[..|s|]) == FlatMap(f, s)
  {
    assert s[..|s|] == s;
  }

  lemma {:induction false} FlatMapMembers<A, B>(f: A -> seq<B>, s: seq<A>, b: B)
    ensures b in FlatMap(f, s) <==> exists a :: a in s && b in f(a)
  {
    if s != [] {
      var init, last := s[..|s| - 1], s[|s| - 1];
      FlatMapMembers(f, init, b);
      assert s == init + [last];
    }
  }

  lemma {:induction false} FlatMapAppend<A, B>(f: A -> seq<B>, s: seq<A>, t: seq<A>)
    ensures FlatMap(f, s + t) == FlatMap(f, s) + FlatMap(f, t)
  {
    if t == [] {
      assert s + t == s;
    } else {
      FlatMapAppend(f, s, t[..|t| - 1]);
      assert (s + t)[..|s + t| - 1] == s + t[..|t| - 1];
    }
  }

  /** Where `f` never yields fewer elements than `g`, the two loops produce the same only
      if they do so in every iteration. */
  lemma {:induction false} FlatMapsAgreeIff<A, B>(f: A -> seq<B>, g: A -> seq<B>, s: seq<A>)
    requires forall a :: a in s ==> |f(a)| >= |g(a)|
    ensures |FlatMap(f, s)| >= |FlatMap(g, s)|
    ensures FlatMap(f, s) == FlatMap(g, s) <==> forall a :: a in s ==> f(a) == g(a)
  {
    if s != [] {
      var init, last := s[..|s| - 1], s[|s| - 1];
      assert s == init + [last];
      FlatMapsAgreeIff(f, g, init);
      AppendsAgreeIff(FlatMap(f, init), f(last), FlatMap(g, init), g(last));
    }
  }

  lemma AppendsAgreeIff<T>(a: seq<T>, x: seq<T>, b: seq<T>, y: seq<T>)
    requires |a| >= |b| && |x| >= |y|
    ensures a + x == b + y <==> a == b && x == y
  {
    if a + x == b + y {
      assert |a + x| == |a| + |x| && |b + y| == |b| + |y|;
      assert a == (a + x)[..|a|] && b == (b + y)[..|b|];
      assert x == (a + x)[|a|..] && y == (b + y)[|b|..];
    }
  }

  lemma MiddlesAgreeIff<T>(a: seq<T>, x: seq<T>, y: seq<T>, c: seq<T>)
    ensures a + x + c == a + y + c <==> x == y
  {
    if a + x + c == a + y + c {
      assert |a + x + c| == |a| + |x| + |c| && |a + y + c| == |a| + |y| + |c|;
      assert x == (a + x + c)[|a|..|a| + |x|] && y == (a + y + c)[|a|..|a| + |y|];
    }
  }

  /** The elements of `s` that satisfy `p`, in order. */
  function Where<A(!new)>(p: A -> bool, s: seq<A>): (r: seq<A>)
    ensures forall a :: a in r <==> a in s && p(a)
  {
    if s == [] then []
    else
      var init, last := s[..|s| - 1], s[|s| - 1];
      assert s == init + [last];
      if p(last) then Where(p, init) + [last] else Where(p, init)
  }

  /** The first element of `s` that satisfies `p`. */
  function Find<A(!new)>(p: A -> bool, s: seq<A>): (r: Option<A>)
    ensures r.Some? ==> r.value in s && p(r.value)
    ensures r.None? ==> forall a :: a in s ==> !p(a)
  {
    if s == [] then None
    else if p(s[0]) then Some(s[0])
    else
      assert s == [s[0]] + s[1..];
      Find(p, s[1..])
  }

  /** The images of the elements of `s`, in order. */
  function Map<A, B>(f: A -> B, s: seq<A>): (r: seq<B>)
    ensures |r| == |s|
    ensures forall i :: 0 <= i < |s| ==> r[i] == f(s[i])
  {
    if s == [] then [] else Map(f, s[..|s| - 1]) + [f(s[|s| - 1])]
  }
}
