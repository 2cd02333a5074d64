/** Allowed-path lookup: `isAllowed` in src/libutil/canon-path.cc with the path
    order of src/libutil/include/nix/util/canon-path.hh. */
module CanonPath {
  import opened Bytes

  const SLASH: byte := 47

  const ROOT: bytes := [SLASH]

  /** A canonical path: absolute, no empty component, no NUL byte. */
  predicate Canonical(p: bytes) {
    && p != [] && p[0] == SLASH && NUL !in p
    && (|p| > 1 ==> p[|p| - 1] != SLASH)
    && forall i | 0 <= i < |p| - 1 :: !(p[i] == SLASH && p[i + 1] == SLASH)
  }

  /** `path.isWithin(parent)`. */
  predicate Within(path: bytes, parent: bytes) {
    && |path| >= |parent| && path[..|parent|] == parent
    && (|parent| > 1 && |path| > |parent| ==> path[|parent|] == SLASH)
  }

  /** What a byte counts for in the order: the separator comes first; `char` may
      be signed. */
  function Key(b: byte, signed: bool): int {
    if b == SLASH then 0 else if signed && b >= 128 then b - 256 else b
  }

  /** `a <=> b`. */
  function Order(a: bytes, b: bytes, signed: bool): int {
    if a == [] || b == [] then
      (if a != [] then 1 else 0) - (if b != [] then 1 else 0)
    else
      var cmp := Key(a[0], signed) - Key(b[0], signed);
      if cmp != 0 then cmp else Order(a[1..], b[1..], signed)
  }

  predicate Leq(a: bytes, b: bytes, signed: bool) {
    Order(a, b, signed) <= 0
  }

  /** The loop of `operator<=>`. */
  method Compare(a: bytes, b: bytes, signed: bool) returns (cmp: int)
    ensures cmp == Order(a, b, signed)
  {
    var i := 0;
    while i < |a| && i < |b|
      invariant 0 <= i <= |a| && i <= |b|
      invariant Order(a, b, signed) == Order(a[i..], b[i..], signed)
    {
      var c, d := Key(a[i], signed), Key(b[i], signed);
      if c != d {
        return c - d;
      }
      i := i + 1;
    }
    return (if i != |a| then 1 else 0) - if i != |b| then 1 else 0;
  }

  // ---------------------------------------------------------------------
  // The order.

  lemma {:induction false} OrderFlips(a: bytes, b: bytes, signed: bool)
    ensures Order(a, b, signed) == -Order(b, a, signed)
    decreases |a|
  {
    if a != [] && b != [] {
      OrderFlips(a[1..], b[1..], signed);
    }
  }

  lemma {:induction false} OrderTransitive(a: bytes, b: bytes, c: bytes, signed: bool)
    requires Leq(a, b, signed) && Leq(b, c, signed)
    ensures Leq(a, c, signed)
    decreases |a|
  {
    if a != [] && b != [] && c != [] {
      if Key(a[0], signed) == Key(b[0], signed) == Key(c[0], signed) {
        OrderTransitive(a[1..], b[1..], c[1..], signed);
      }
    }
  }

  lemma {:induction false} OrderReflexive(a: bytes, signed: bool)
    ensures Leq(a, a, signed)
    decreases |a|
  {
    if a != [] {
      OrderReflexive(a[1..], signed);
    }
  }

  /** Without NUL bytes the key tells bytes apart. */
  lemma KeyInjective(a: byte, b: byte, signed: bool)
    requires a != NUL && b != NUL && Key(a, signed) == Key(b, signed)
    ensures a == b
  {
  }

  /** Whatever lies between a path and an extension of it extends it too. */
  lemma {:induction false} PrefixSqueezed(q: bytes, x: bytes, rest: bytes, signed: bool)
    requires NUL !in q && NUL !in x
    requires Leq(q, x, signed) && Leq(x, q + rest, signed)
    ensures q <= x && Leq(x[|q|..], rest, signed)
    decreases |q|
  {
    if q == [] {
      assert q + rest == rest && x[0..] == x;
    } else {
      assert (q + rest)[0] == q[0] && (q + rest)[1..] == q[1..] + rest;
      assert x != [];
      KeyInjective(q[0], x[0], signed);
      PrefixSqueezed(q[1..], x[1..], rest, signed);
      assert x == [q[0]] + x[1..] && q == [q[0]] + q[1..];
    }
  }

  lemma {:induction false} PrefixLeq(q: bytes, rest: bytes, signed: bool)
    ensures Leq(q, q + rest, signed)
    decreases |q|
  {
    if q != [] {
      assert (q + rest)[1..] == q[1..] + rest;
      PrefixLeq(q[1..], rest, signed);
    }
  }

  // ---------------------------------------------------------------------
  // Parents.

  /** `path.rfind('/')` of an absolute path. */
  function LastSlash(p: bytes): (i: nat)
    requires p != [] && p[0] == SLASH
    ensures i < |p| && p[i] == SLASH && SLASH !in p[i + 1..]
  {
    if p[|p| - 1] == SLASH then |p| - 1
    else
      var i := LastSlash(p[..|p| - 1]);
      assert p[i + 1..] == p[..|p| - 1][i + 1..] + [p[|p| - 1]];
      i
  }

  function Parent(p: bytes): (r: bytes)
    requires Canonical(p) && |p| > 1
    ensures |r| < |p|
  {
    p[..Max(1, LastSlash(p))]
  }

  lemma ParentIsCanonical(p: bytes)
    requires Canonical(p) && |p| > 1
    ensures Canonical(Parent(p)) && Within(p, Parent(p))
  {
    var i := LastSlash(p);
    if i > 1 {
      assert p[i - 1] != SLASH;
    }
  }

  /** A path is within another exactly when it is that one or its parent is
      within it. */
  lemma WithinViaParent(p: bytes, a: bytes)
    requires Canonical(p) && |p| > 1 && Canonical(a)
    ensures Within(p, a) <==> p == a || Within(Parent(p), a)
  {
    var i, r := LastSlash(p), Parent(p);
    if Within(p, a) && p != a {
      assert p[..|a|] == a && |a| < |p|;
      if |a| > 1 {
        assert p[|a|] == SLASH;
        assert forall k | i < k < |p| :: p[k] == p[i + 1..][k - i - 1] != SLASH;
        assert r[..|a|] == a;
      }
    }
    if Within(r, a) {
      assert p[..|a|] == r[..|a|];
      if |a| > 1 && |p| > |a| {
        assert |r| == i;
      }
    }
  }

  // ---------------------------------------------------------------------
  // The lookup.

  ghost predicate IsLowerBound(allowed: set<bytes>, q: bytes, lb: Option<bytes>, signed: bool) {
    match lb
    case None => forall a | a in allowed :: !Leq(q, a, signed)
    case Some(x) =>
      x in allowed && Leq(q, x, signed) && forall a | a in allowed && Leq(q, a, signed) :: Leq(x, a, signed)
  }

  /** `allowed.lower_bound(q)`. */
  method LowerBound(allowed: set<bytes>, q: bytes, signed: bool) returns (lb: Option<bytes>)
    ensures IsLowerBound(allowed, q, lb, signed)
  {
    lb := None;
    var rest := allowed;
    while rest != {}
      invariant rest <= allowed && IsLowerBound(allowed - rest, q, lb, signed)
      decreases rest
    {
      var a :| a in rest;
      rest := rest - {a};
      var below := Compare(q, a, signed);
      var better := true;
      if lb.Some? {
        var cmp := Compare(a, lb.value, signed);
        better := cmp < 0;
        OrderFlips(a, lb.value, signed);
        forall x | Leq(lb.value, x, signed) && Leq(a, lb.value, signed) ensures Leq(a, x, signed) {
          OrderTransitive(a, lb.value, x, signed);
        }
      }
      OrderReflexive(a, signed);
      hide Order;
      if below <= 0 && better {
        lb := Some(a);
      }
    }
    assert allowed - {} == allowed;
  }

  ghost predicate SomeAbove(allowed: set<bytes>, q: bytes) {
    exists a :: a in allowed && Within(q, a)
  }

  ghost predicate SomeBelow(allowed: set<bytes>, q: bytes) {
    exists a :: a in allowed && Within(a, q)
  }

  /** A path that continues `q` with a byte that sorts before the separator. */
  ghost predicate Shadowed(allowed: set<bytes>, q: bytes, signed: bool) {
    signed && q != ROOT && exists x :: x in allowed && q < x && x[|q|] >= 128
  }

  /** `isAllowed`: one probe for the path and what is below it, and a walk over
      the parents. It finds an allowed path above whenever there is one; one
      below only if no name starts with the same bytes and a byte above 127. */
  method IsAllowed(allowed: set<bytes>, q: bytes, signed: bool) returns (r: bool)
    requires Canonical(q) && forall a | a in allowed :: Canonical(a)
    ensures r <==> SomeAbove(allowed, q) || (SomeBelow(allowed, q) && !Shadowed(allowed, q, signed))
  {
    var lb := LowerBound(allowed, q, signed);
    if lb.Some? && Within(lb.value, q) {
      HitIsRight(allowed, q, lb.value, signed);
      return true;
    }
    MissIsRight(allowed, q, lb, signed);
    hide IsLowerBound, Order, Shadowed;
    var path := q;
    while |path| > 1
      invariant Canonical(path) && path !in allowed
      invariant SomeAbove(allowed, q) <==> SomeAbove(allowed, path)
    {
      ParentIsCanonical(path);
      AboveViaParent(allowed, path);
      path := Parent(path);
      if path in allowed {
        assert Within(path, path);
        return true;
      }
    }
    assert path == ROOT;
    assert forall a | a in allowed && Within(path, a) :: a == path;
    return false;
  }

  lemma AboveViaParent(allowed: set<bytes>, p: bytes)
    requires Canonical(p) && |p| > 1 && p !in allowed && forall a | a in allowed :: Canonical(a)
    ensures SomeAbove(allowed, p) <==> SomeAbove(allowed, Parent(p))
  {
    forall a | a in allowed ensures Within(p, a) <==> Within(Parent(p), a) {
      WithinViaParent(p, a);
    }
    hide Within, Canonical;
  }

  lemma HitIsRight(allowed: set<bytes>, q: bytes, lb: bytes, signed: bool)
    requires Canonical(q) && forall a | a in allowed :: Canonical(a)
    requires IsLowerBound(allowed, q, Some(lb), signed) && Within(lb, q)
    ensures SomeBelow(allowed, q) && (SomeAbove(allowed, q) || !Shadowed(allowed, q, signed))
  {
    if q in allowed {
      assert Within(q, q);
    } else {
      forall x | x in allowed && q < x && x[|q|] >= 128 && signed ensures q == ROOT {
        assert x == q + x[|q|..];
        PrefixLeq(q, x[|q|..], signed);
        PrefixSqueezed(q, lb, x[|q|..], signed);
        assert |lb| == |q| ==> lb == q;
        assert lb[|q|..][0] == lb[|q|] && x[|q|..][0] == x[|q|];
      }
    }
  }

  lemma MissIsRight(allowed: set<bytes>, q: bytes, lb: Option<bytes>, signed: bool)
    requires Canonical(q) && forall a | a in allowed :: Canonical(a)
    requires IsLowerBound(allowed, q, lb, signed) && !(lb.Some? && Within(lb.value, q))
    ensures q !in allowed && (SomeBelow(allowed, q) ==> Shadowed(allowed, q, signed))
  {
    forall a | a in allowed && Within(a, q)
      ensures a != q && Shadowed(allowed, q, signed)
    {
      var rest := a[|q|..];
      assert a == q + rest;
      PrefixLeq(q, rest, signed);
      assert lb.Some? && Leq(lb.value, a, signed);
      PrefixSqueezed(q, lb.value, rest, signed);
      var x := lb.value;
      assert |x| > |q| > 1 && x[|q|] != SLASH;
      assert x[|q|..][0] == x[|q|];
      assert rest != [];
      assert Key(x[|q|], signed) <= Key(rest[0], signed) == 0;
      assert q < x && x[|q|] >= 128;
    }
    assert Within(q, q);
  }

  /** Over bytes below 128, or where `char` is unsigned, the lookup is exact: some
      allowed path is within this one or this one is within some allowed path. */
  method IsAllowedIsExact(allowed: set<bytes>, q: bytes, signed: bool) returns (r: bool)
    requires Canonical(q) && forall a | a in allowed :: Canonical(a)
    requires signed ==> forall a, i | a in allowed && 0 <= i < |a| :: a[i] < 128
    ensures r <==> SomeAbove(allowed, q) || SomeBelow(allowed, q)
  {
    r := IsAllowed(allowed, q, signed);
  }

  /** With signed `char`, "/a" is not found to be the parent of "/a/b" when
      "/a\xff" is allowed too. */
  method ShadowedParent() returns (allowed: set<bytes>, q: bytes, r: bool)
    ensures Canonical(q) && SomeBelow(allowed, q) && !r
  {
    var inside: bytes := [SLASH, 97, SLASH, 98];
    var shadow: bytes := [SLASH, 97, 255];
    q := [SLASH, 97];
    allowed := {inside, shadow};
    r := IsAllowed(allowed, q, true);
    assert Within(inside, q) && q < shadow;
    assert !Within(q, inside) && !Within(q, shadow);
  }

  // ---------------------------------------------------------------------
  // The order by its first difference.

  /** Two paths that differ in a byte after a common part: the separator is before
      all others, but for the bytes from 128 on where `char` is signed. */
  lemma OrderAfterCommonPart(p: bytes, x: byte, s: bytes, y: byte, t: bytes, signed: bool)
    requires x != NUL && y != NUL && x != y
    ensures Order(p + [x] + s, p + [y] + t, signed) < 0 <==>
            if signed && (x < 128) != (y < 128) then x >= 128 else y != SLASH && (x == SLASH || x < y)
    ensures s != [] ==> Order(p, p + s, signed) < 0
    decreases |p|
  {
    if p != [] {
      OrderAfterCommonPart(p[1..], x, s, y, t, signed);
      assert (p + [x] + s)[1..] == p[1..] + [x] + s && (p + [y] + t)[1..] == p[1..] + [y] + t;
      assert (p + s)[1..] == p[1..] + s;
    }
  }
}
