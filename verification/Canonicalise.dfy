/** Path canonicalisation: the loop of `canonPathInner` over one string
    (src/libutil/include/nix/util/file-path-impl.hh, Unix paths, no hook) does
    what a stack of components would. */
module Canonicalise {
  import opened Bytes
  import opened CanonPath

  const DOT: bytes := [46]
  const DOTDOT: bytes := [46, 46]

  /** `findPathSep`, or the length of the string. */
  function FirstSlash(s: bytes): (n: nat)
    ensures n <= |s| && SLASH !in s[..n] && (n < |s| ==> s[n] == SLASH)
  {
    if s == [] || s[0] == SLASH then 0
    else
      var n := 1 + FirstSlash(s[1..]);
      assert s[..n] == [s[0]] + s[1..][..n - 1];
      n
  }

  /** The non-empty components of a path. */
  function Components(s: bytes): (cs: seq<bytes>)
    ensures forall i | 0 <= i < |cs| :: cs[i] != [] && SLASH !in cs[i] && forall b | b in cs[i] :: b in s
    decreases |s|
  {
    if s == [] then [] else if s[0] == SLASH then Components(s[1..])
    else [s[..FirstSlash(s)]] + Components(s[FirstSlash(s)..])
  }

  /** What `cs` does to a stack of components. */
  function Resolve(stack: seq<bytes>, cs: seq<bytes>): seq<bytes>
    decreases |cs|
  {
    if cs == [] then stack
    else if cs[0] == DOT then Resolve(stack, cs[1..])
    else if cs[0] == DOTDOT then Resolve(if stack == [] then [] else stack[..|stack| - 1], cs[1..])
    else Resolve(stack + [cs[0]], cs[1..])
  }

  /** The components, each after a separator. */
  function Join(stack: seq<bytes>): bytes {
    if stack == [] then [] else Join(stack[..|stack| - 1]) + ([SLASH] + stack[|stack| - 1])
  }

  function OrRoot(p: bytes): bytes {
    if p == [] then ROOT else p
  }

  function Canon(path: bytes): bytes {
    OrRoot(Join(Resolve([], Components(path))))
  }

  /** A stack as the loop keeps it. */
  predicate Clean(stack: seq<bytes>) {
    forall i | 0 <= i < |stack| :: stack[i] != [] && SLASH !in stack[i] && stack[i] != DOT && stack[i] != DOTDOT
  }

  lemma JoinSnoc(stack: seq<bytes>, c: bytes)
    ensures Join(stack + [c]) == Join(stack) + ([SLASH] + c)
  {
    assert (stack + [c])[..|stack|] == stack;
  }

  /** `result.erase(rfind('/'))`: removes the last component. */
  lemma EraseLast(stack: seq<bytes>)
    requires stack != [] && Clean(stack)
    ensures Join(stack) != [] && Join(stack)[0] == SLASH
    ensures LastSlash(Join(stack)) == |Join(stack[..|stack| - 1])|
    ensures Join(stack)[..LastSlash(Join(stack))] == Join(stack[..|stack| - 1])
  {
    var front, c := Join(stack[..|stack| - 1]), stack[|stack| - 1];
    JoinStartsWithSlash(stack);
    var i := LastSlash(Join(stack));
    assert Join(stack)[|front|] == SLASH;
    assert Join(stack)[|front| + 1..] == c;
    assert forall k | i < k < |Join(stack)| :: Join(stack)[k] == Join(stack)[i + 1..][k - i - 1];
    assert forall k | |front| < k < |Join(stack)| :: Join(stack)[k] == c[k - |front| - 1] != SLASH;
  }

  lemma {:induction false} JoinStartsWithSlash(stack: seq<bytes>)
    requires stack != []
    ensures Join(stack) != [] && Join(stack)[0] == SLASH
  {
    if |stack| > 1 {
      JoinStartsWithSlash(stack[..|stack| - 1]);
    }
  }

  lemma {:induction false} ResolvedIsClean(stack: seq<bytes>, cs: seq<bytes>)
    requires Clean(stack) && forall i | 0 <= i < |cs| :: cs[i] != [] && SLASH !in cs[i]
    ensures Clean(Resolve(stack, cs))
    decreases |cs|
  {
    if cs != [] {
      ResolvedIsClean(if cs[0] == DOT then stack
                      else if cs[0] == DOTDOT then (if stack == [] then [] else stack[..|stack| - 1])
                      else stack + [cs[0]], cs[1..]);
    }
  }

  method SkipSlashes(path: bytes) returns (remaining: bytes)
    ensures Components(remaining) == Components(path) && |remaining| <= |path|
    ensures remaining == [] || remaining[0] != SLASH
  {
    remaining := path;
    while remaining != [] && remaining[0] == SLASH
      invariant Components(remaining) == Components(path) && |remaining| <= |path|
      decreases |remaining|
    {
      remaining := remaining[1..];
    }
  }

  /** `canonPathInner`. */
  method CanonPathInner(path: bytes) returns (result: bytes)
    ensures result == Canon(path)
  {
    result := [];
    var remaining := path;
    ghost var stack: seq<bytes> := [];
    while true
      invariant Clean(stack) && result == Join(stack)
      invariant Resolve([], Components(path)) == Resolve(stack, Components(remaining))
      decreases |remaining|
    {
      remaining := SkipSlashes(remaining);
      if remaining == [] {
        break;
      }
      var slash := FirstSlash(remaining);
      var nextComp := remaining[..slash];
      assert Components(remaining) == [nextComp] + Components(remaining[slash..]);
      remaining := remaining[slash..];
      if nextComp == DOT {
      } else if nextComp == DOTDOT {
        if result != [] {
          EraseLast(stack);
          result := result[..LastSlash(result)];
          stack := stack[..|stack| - 1];
        } else {
          EmptyJoin(stack);
        }
      } else {
        JoinSnoc(stack, nextComp);
        result := result + ([SLASH] + nextComp);
        stack := stack + [nextComp];
      }
    }
    if result == [] {
      result := ROOT;
    }
  }

  lemma EmptyJoin(stack: seq<bytes>)
    ensures Join(stack) == [] <==> stack == []
  {
  }

  // ---------------------------------------------------------------------
  // What canonical means.

  lemma {:induction false} JoinIsCanonical(stack: seq<bytes>)
    requires stack != [] && Clean(stack) && forall i | 0 <= i < |stack| :: NUL !in stack[i]
    ensures Canonical(Join(stack)) && |Join(stack)| > 1
  {
    var front, c := Join(stack[..|stack| - 1]), stack[|stack| - 1];
    if |stack| > 1 {
      JoinIsCanonical(stack[..|stack| - 1]);
    }
    assert Join(stack) == front + ([SLASH] + c);
    forall i | 0 <= i < |Join(stack)| - 1 ensures !(Join(stack)[i] == SLASH && Join(stack)[i + 1] == SLASH) {
      assert i > |front| ==> c[i - |front| - 1] != SLASH;
      assert i + 1 > |front| ==> c[i - |front|] != SLASH;
    }
    assert c[|c| - 1] != SLASH;
  }

  /** The components of a string that ends in one more component. */
  lemma {:induction false} ComponentsSnoc(s: bytes, c: bytes)
    requires c != [] && SLASH !in c
    ensures Components(s + ([SLASH] + c)) == Components(s) + [c]
    decreases |s|
  {
    var t := s + ([SLASH] + c);
    if s == [] {
      assert t[1..] == c && FirstSlash(c) == |c| && c[..|c|] == c && c[|c|..] == [];
    } else if s[0] == SLASH {
      assert t[1..] == s[1..] + ([SLASH] + c);
      ComponentsSnoc(s[1..], c);
    } else {
      var n := FirstSlash(s);
      FirstSlashPrefix(s, [SLASH] + c);
      assert t[0] == s[0] && t[..n] == s[..n] && t[n..] == s[n..] + ([SLASH] + c);
      ComponentsSnoc(s[n..], c);
      assert Components(t) == [s[..n]] + (Components(s[n..]) + [c]);
    }
  }

  lemma {:induction false} FirstSlashPrefix(s: bytes, rest: bytes)
    requires rest != [] && rest[0] == SLASH
    ensures FirstSlash(s + rest) == FirstSlash(s)
    decreases |s|
  {
    if s != [] && s[0] != SLASH {
      assert (s + rest)[1..] == s[1..] + rest;
      FirstSlashPrefix(s[1..], rest);
    }
  }

  lemma {:induction false} ComponentsOfJoin(stack: seq<bytes>)
    requires Clean(stack)
    ensures Components(Join(stack)) == stack
  {
    if stack != [] {
      var front, c := stack[..|stack| - 1], stack[|stack| - 1];
      ComponentsOfJoin(front);
      ComponentsSnoc(Join(front), c);
      assert front + [c] == stack;
    }
  }

  lemma {:induction false} ResolveClean(stack: seq<bytes>, cs: seq<bytes>)
    requires Clean(cs)
    ensures Resolve(stack, cs) == stack + cs
    decreases |cs|
  {
    if cs == [] {
      assert stack + cs == stack;
    } else {
      ResolveClean(stack + [cs[0]], cs[1..]);
      assert stack + [cs[0]] + cs[1..] == stack + cs;
    }
  }

  lemma {:induction false} ResolveKeepsBytes(stack: seq<bytes>, cs: seq<bytes>, b: byte)
    requires (forall i | 0 <= i < |stack| :: b !in stack[i]) && forall i | 0 <= i < |cs| :: b !in cs[i]
    ensures forall i | 0 <= i < |Resolve(stack, cs)| :: b !in Resolve(stack, cs)[i]
    decreases |cs|
  {
    if cs != [] {
      ResolveKeepsBytes(if cs[0] == DOT then stack
                        else if cs[0] == DOTDOT then (if stack == [] then [] else stack[..|stack| - 1])
                        else stack + [cs[0]], cs[1..], b);
    }
  }

  /** The result is canonical, its components are the resolved ones, and
      canonicalising again changes nothing. */
  method CanonicaliseTwice(path: bytes) returns (once: bytes, twice: bytes)
    requires NUL !in path
    ensures Canonical(once) && Components(once) == Resolve([], Components(path)) && Clean(Components(once))
    ensures twice == once
  {
    once := CanonPathInner(path);
    twice := CanonPathInner(once);
    var stack := Resolve([], Components(path));
    ResolvedIsClean([], Components(path));
    ResolveKeepsBytes([], Components(path), NUL);
    if stack == [] {
      assert Components(ROOT) == [];
    } else {
      JoinIsCanonical(stack);
      ComponentsOfJoin(stack);
    }
    ResolveClean([], stack);
    assert [] + stack == stack;
  }

  lemma {:induction false} ResolveSnoc(stack: seq<bytes>, cs: seq<bytes>, c: bytes)
    ensures Resolve(stack, cs + [c]) == Resolve(Resolve(stack, cs), [c])
    decreases |cs|
  {
    if cs != [] {
      assert (cs + [c])[0] == cs[0] && (cs + [c])[1..] == cs[1..] + [c];
      ResolveSnoc(if cs[0] == DOT then stack
                  else if cs[0] == DOTDOT then (if stack == [] then [] else stack[..|stack| - 1])
                  else stack + [cs[0]], cs[1..], c);
    } else {
      assert [] + [c] == [c];
    }
  }

  /** One more component: "." changes nothing, ".." leads to the parent, and any
      other name stands at the end. */
  lemma OneMore(path: bytes, c: bytes)
    requires NUL !in path && NUL !in c && SLASH !in c && c != []
    ensures var p, q := Canon(path), Canon(path + ([SLASH] + c));
            && Canonical(p) && Canonical(q)
            && (c == DOT ==> q == p)
            && (c == DOTDOT ==> q == if |p| == 1 then ROOT else Parent(p))
            && (c != DOT && c != DOTDOT ==> q == (if |p| == 1 then [] else p) + ([SLASH] + c))
  {
    var stack := Resolve([], Components(path));
    var one: seq<bytes> := [c];
    ComponentsSnoc(path, c);
    ResolveSnoc([], Components(path), c);
    var stack' := Resolve(stack, one);
    assert stack' == if c == DOT then stack else if c == DOTDOT then (if stack == [] then [] else stack[..|stack| - 1])
                     else stack + [c] by {
      assert one[1..] == [];
    }
    CanonIsCanonical(path);
    CanonIsCanonical(path + ([SLASH] + c));
    ResolvedIsClean([], Components(path));
    hide Resolve, Components, Canonical;
    if c == DOTDOT && stack != [] {
      EraseLast(stack);
      EmptyJoin(stack[..|stack| - 1]);
    }
    JoinSnoc(stack, c);
  }

  lemma CanonIsCanonical(path: bytes)
    requires NUL !in path
    ensures Canonical(Canon(path)) && (Resolve([], Components(path)) == [] <==> |Canon(path)| == 1)
  {
    var stack := Resolve([], Components(path));
    ResolvedIsClean([], Components(path));
    ResolveKeepsBytes([], Components(path), NUL);
    if stack != [] {
      JoinIsCanonical(stack);
    }
  }

  lemma {:induction false} JoinOfComponents(p: bytes)
    requires Canonical(p) && |p| > 1
    ensures Join(Components(p)) == p
    decreases |p|
  {
    var i := LastSlash(p);
    var front, c := p[..i], p[i + 1..];
    assert p == front + ([SLASH] + c);
    assert i < |p| - 1;
    ComponentsSnoc(front, c);
    JoinSnoc(Components(front), c);
    assert i > 0 ==> p[i - 1] != SLASH;
    if i == 0 {
      assert front == [];
    } else {
      assert Canonical(front);
      JoinOfComponents(front);
    }
  }

  /** Canonicalising leaves a path alone exactly when it is canonical and none of
      its components is a dot or two. */
  lemma UnchangedIff(p: bytes)
    requires NUL !in p
    ensures Canon(p) == p <==> Canonical(p) && Clean(Components(p))
  {
    CanonIsCanonical(p);
    var stack := Resolve([], Components(p));
    ResolvedIsClean([], Components(p));
    if Canon(p) == p && stack != [] {
      ComponentsOfJoin(stack);
    }
    if Canonical(p) && Clean(Components(p)) {
      ResolveClean([], Components(p));
      assert [] + Components(p) == Components(p);
      if |p| > 1 {
        JoinOfComponents(p);
      } else {
        assert p == ROOT && Components(ROOT) == [];
      }
    }
  }
}
