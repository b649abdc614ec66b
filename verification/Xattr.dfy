/** The xattr and ACL engine (agent/src/xattr.c): which attributes are copied,
    what a copy leaves on the destination, and the drift check. */
module Xattr {
  import opened NameOrder

  type Attr = string
  type Value = seq<int>
  type Xattrs = map<Attr, Value>

  datatype Category = Copy | Acl | Ignore

  /** What to do with an ACL the destination may not take. */
  datatype Untranslatable = Record | Skip | Fail

  datatype AclOptions = AclOptions(posix: bool, nfs4: bool, untranslatable: Untranslatable)

  function Classify(a: Attr): Category {
    if a == "security.selinux" then Ignore
    else if |a| >= 7 && a[..7] == "system." then
      if a == "system.posix_acl_access" || a == "system.posix_acl_default" || a == "system.nfs4_acl"
      then Acl else Ignore
    else Copy
  }

  function AclEnabled(o: AclOptions, a: Attr): bool {
    if a == "system.nfs4_acl" then o.nfs4 else o.posix
  }

  /** The policy as the copy and the drift check use it. Everything below holds
      for any classification; `RulesOf` is the one the agent applies. */
  datatype Rules = Rules(category: Attr -> Category, enabled: Attr -> bool, skip: bool)

  function RulesOf(o: AclOptions): Rules {
    Rules(Classify, a => AclEnabled(o, a), o.untranslatable == Skip)
  }

  /** Whether the copy writes this source attribute to the destination. */
  predicate Written(o: Rules, a: Attr) {
    match o.category(a)
    case Ignore => false
    case Acl => o.enabled(a) && !o.skip
    case Copy => true
  }

  /** xcopy without faults: write the source attributes that pass the policy,
      then remove destination attributes of copied namespaces the source lacks. */
  function Copied(o: Rules, src: Xattrs, dst: Xattrs): Xattrs {
    (map a | a in dst && (a in src || o.category(a) == Ignore) :: dst[a])
    + (map a | a in src && Written(o, a) :: src[a])
  }

  /** The attributes the drift check looks at. */
  function Compared(o: Rules, x: Xattrs): Xattrs {
    map a | a in x && o.category(a) != Ignore :: x[a]
  }

  predicate Equal(o: Rules, src: Xattrs, dst: Xattrs) {
    Compared(o, src) == Compared(o, dst)
  }

  // ---------------------------------------------------------------------
  // What the classes mean for each attribute
  // ---------------------------------------------------------------------

  /** Both sets have the attribute with one value, or neither has it. */
  ghost predicate Same(x: Xattrs, y: Xattrs, a: Attr) {
    (a in x <==> a in y) && (a in x && a in y ==> x[a] == y[a])
  }

  /** What must become of one attribute of an object that had `was`, when it gets
      the attributes of src. */
  ghost predicate Carried(o: Rules, src: Xattrs, was: Xattrs, now: Xattrs, a: Attr) {
    match o.category(a)
    case Copy => Same(now, src, a)
    case Acl =>
      if o.enabled(a) && !o.skip then Same(now, src, a)
      else if a in src then Same(now, was, a) else a !in now
    case Ignore => Same(now, was, a)
  }

  ghost predicate AllCarried(o: Rules, src: Xattrs, was: Xattrs, now: Xattrs) {
    forall a :: Carried(o, src, was, now, a)
  }

  /** The copy leaves each attribute as it must be, and nothing else would do. */
  lemma CopiedIff(o: Rules, src: Xattrs, was: Xattrs, now: Xattrs)
    ensures AllCarried(o, src, was, now) <==> now == Copied(o, src, was)
  {
    var c := Copied(o, src, was);
    forall a ensures Carried(o, src, was, now, a) <==> Same(now, c, a) {
    }
    if AllCarried(o, src, was, now) {
      forall a ensures Same(now, c, a) { assert Carried(o, src, was, now, a); }
      SameEverywhere(now, c);
    }
  }

  lemma SameEverywhere(x: Xattrs, y: Xattrs)
    requires forall a :: Same(x, y, a)
    ensures x == y
  {
    forall a ensures a in x <==> a in y { assert Same(x, y, a); }
    forall a | a in x ensures x[a] == y[a] { assert Same(x, y, a); }
  }

  /** The managed attributes are the same on both sides. */
  ghost predicate InStep(o: Rules, src: Xattrs, dst: Xattrs) {
    forall a :: o.category(a) != Ignore ==> Same(src, dst, a)
  }

  lemma EqualIff(o: Rules, src: Xattrs, dst: Xattrs)
    ensures Equal(o, src, dst) <==> InStep(o, src, dst)
  {
    var x, y := Compared(o, src), Compared(o, dst);
    if Equal(o, src, dst) {
      forall a | o.category(a) != Ignore ensures Same(src, dst, a) {
        assert (a in src <==> a in x) && (a in dst <==> a in y);
      }
    }
    if InStep(o, src, dst) {
      forall a ensures a in x <==> a in y { assert o.category(a) != Ignore ==> Same(src, dst, a); }
      forall a | a in x ensures x[a] == y[a] { assert Same(src, dst, a); }
    }
  }

  /** An object in step needs nothing carried over. */
  lemma InStepCarried(o: Rules, src: Xattrs, dst: Xattrs)
    requires InStep(o, src, dst)
    ensures AllCarried(o, src, dst, dst)
  {
    forall a ensures Carried(o, src, dst, dst, a) {
      assert o.category(a) != Ignore ==> Same(src, dst, a);
    }
  }

  /** The agent's classes by namespace, and the option each ACL answers to. */
  lemma ClassesByName(o: AclOptions, a: Attr)
    ensures var r, posix := RulesOf(o), {"system.posix_acl_access", "system.posix_acl_default"};
            && ("user." <= a || "trusted." <= a ==> r.category(a) == Copy)
            && (r.category(a) == Acl <==> a in posix || a == "system.nfs4_acl")
            && (r.category(a) == Ignore <==> a == "security.selinux" || ("system." <= a && r.category(a) != Acl))
            && (a in posix ==> (Written(r, a) <==> o.posix && o.untranslatable != Skip))
            && (a == "system.nfs4_acl" ==> (Written(r, a) <==> o.nfs4 && o.untranslatable != Skip))
  {
    if "user." <= a { assert a[0] == 'u'; }
    if "trusted." <= a { assert a[0] == 't'; }
  }

  /** A copy leaves the drift check satisfied exactly when every source ACL the
      policy leaves out was already on the destination with the same value: the
      drift check itself never looks at the policy. */
  lemma CopySettlesIff(o: Rules, src: Xattrs, dst: Xattrs)
    ensures Equal(o, src, Copied(o, src, dst)) <==>
            forall a :: a in src && o.category(a) == Acl && !Written(o, a)
                        ==> a in dst && dst[a] == src[a]
  {
    var out := Copied(o, src, dst);
    if Equal(o, src, out) {
      forall a | a in src && o.category(a) == Acl && !Written(o, a)
        ensures a in dst && dst[a] == src[a]
      {
        assert a in Compared(o, src);
        assert a in Compared(o, out);
      }
    }
    if forall a :: a in src && o.category(a) == Acl && !Written(o, a) ==> a in dst && dst[a] == src[a] {
      assert Compared(o, src).Keys == Compared(o, out).Keys;
    }
  }

  /** Every source ACL is within the job's options. */
  predicate Preservable(o: Rules, src: Xattrs) {
    forall a :: a in src && o.category(a) == Acl ==> Written(o, a)
  }

  /** A fresh destination (a copy temp) settles exactly when no ACL is left out. */
  lemma FreshCopySettlesIff(o: Rules, src: Xattrs)
    ensures Equal(o, src, Copied(o, src, map[])) <==> Preservable(o, src)
  {
    CopySettlesIff(o, src, map[]);
  }

  /** With both ACL kinds enabled and the policy not skip, every copy settles. */
  lemma EnabledAclsSettle(o: AclOptions, src: Xattrs, dst: Xattrs)
    requires o.posix && o.nfs4 && o.untranslatable != Skip
    ensures Preservable(RulesOf(o), src)
    ensures Equal(RulesOf(o), src, Copied(RulesOf(o), src, dst))
  {
    CopySettlesIff(RulesOf(o), src, dst);
  }

  /** The destination after n passes of fixing. */
  function CopiedTimes(o: Rules, src: Xattrs, dst: Xattrs, n: nat): Xattrs {
    if n == 0 then dst else Copied(o, src, CopiedTimes(o, src, dst, n - 1))
  }

  /** A source ACL the options leave out, and that the destination does not
      already carry, is found to drift after every copy, however many there are. */
  lemma {:induction false} LeftOutAclChurns(o: Rules, src: Xattrs, dst: Xattrs, a: Attr, n: nat)
    requires a in src && o.category(a) == Acl && !Written(o, a) && !(a in dst && dst[a] == src[a])
    ensures var x := CopiedTimes(o, src, dst, n);
            !(a in x && x[a] == src[a]) && !Equal(o, src, x)
  {
    if n > 0 { LeftOutAclChurns(o, src, dst, a, n - 1); }
    var x := CopiedTimes(o, src, dst, n);
    assert a in Compared(o, src);
    assert a in Compared(o, x) ==> a in x && Compared(o, x)[a] == x[a];
  }

  /** So with NFSv4 ACLs disabled, a source that has one never settles. */
  lemma DisabledAclChurns(o: AclOptions, src: Xattrs, dst: Xattrs, n: nat)
    requires !o.nfs4 && "system.nfs4_acl" in src && "system.nfs4_acl" !in dst
    ensures !Equal(RulesOf(o), src, CopiedTimes(RulesOf(o), src, dst, n))
  {
    var a: Attr := "system.nfs4_acl";
    assert a[..7] == "system.";
    LeftOutAclChurns(RulesOf(o), src, dst, a, n);
  }

  // ---------------------------------------------------------------------
  // The two loops
  // ---------------------------------------------------------------------

  /** The managed names of a sorted listing, in order. */
  function Kept(o: Rules, v: seq<Attr>): seq<Attr> {
    if v == [] then []
    else (if o.category(v[0]) != Ignore then [v[0]] else []) + Kept(o, v[1..])
  }

  /** The kept names from position i on. */
  function KeptFrom(o: Rules, v: seq<Attr>, i: nat): seq<Attr>
    decreases |v| - i
  {
    if i >= |v| then []
    else (if o.category(v[i]) != Ignore then [v[i]] else []) + KeptFrom(o, v, i + 1)
  }

  lemma {:induction false} KeptFromIs(o: Rules, v: seq<Attr>, i: nat)
    requires i <= |v|
    ensures KeptFrom(o, v, i) == Kept(o, v[i..])
    decreases |v| - i
  {
    if i < |v| {
      KeptFromIs(o, v, i + 1);
      assert v[i..][0] == v[i] && v[i..][1..] == v[i + 1..];
    }
  }

  lemma KeptCons(a: Attr, rest: seq<Attr>)
    ensures ([a] + rest)[0] == a && ([a] + rest)[1..] == rest
  {
  }

  lemma {:induction false} KeptMembers(o: Rules, v: seq<Attr>, a: Attr)
    ensures a in Kept(o, v) <==> a in v && o.category(a) != Ignore
  {
    if v != [] {
      KeptMembers(o, v[1..], a);
      assert a in v <==> a == v[0] || a in v[1..];
    }
  }

  lemma {:induction false} KeptSorted(o: Rules, v: seq<Attr>)
    requires Sorted(v)
    ensures Sorted(Kept(o, v))
  {
    if v != [] {
      KeptSorted(o, v[1..]);
      if o.category(v[0]) != Ignore {
        assert Kept(o, v)[1..] == Kept(o, v[1..]);
        forall x | x in Kept(o, v[1..]) ensures Before(v[0], x) {
          KeptMembers(o, v[1..], x);
        }
      } else {
        assert Kept(o, v) == Kept(o, v[1..]);
      }
    }
  }

  /** Both listings agree from here on, names and values. */
  predicate Agree(a: seq<Attr>, b: seq<Attr>, src: Xattrs, dst: Xattrs) {
    a == b && forall x :: x in a && x in src && x in dst ==> src[x] == dst[x]
  }

  /** Comparing the kept listings is comparing the managed attribute sets. */
  lemma KeptAgreeIff(o: Rules, sv: seq<Attr>, dv: seq<Attr>, src: Xattrs, dst: Xattrs)
    requires Lists(sv, src.Keys) && Lists(dv, dst.Keys)
    ensures Agree(Kept(o, sv), Kept(o, dv), src, dst) <==> Equal(o, src, dst)
  {
    var a, b := Kept(o, sv), Kept(o, dv);
    forall x ensures (x in a <==> x in Compared(o, src)) && (x in b <==> x in Compared(o, dst)) {
      KeptMembers(o, sv, x);
      KeptMembers(o, dv, x);
    }
    if Equal(o, src, dst) {
      KeptSorted(o, sv);
      KeptSorted(o, dv);
      SortedUnique(a, b);
      forall x | x in a ensures src[x] == dst[x] {
        assert Compared(o, src)[x] == Compared(o, dst)[x];
      }
    }
    if Agree(a, b, src, dst) {
      assert Compared(o, src).Keys == Compared(o, dst).Keys;
    }
  }

  lemma AgreeStep(a: seq<Attr>, b: seq<Attr>, src: Xattrs, dst: Xattrs)
    requires a != [] && b != [] && a[0] in src && b[0] in dst
    ensures Agree(a, b, src, dst) <==>
            a[0] == b[0] && src[a[0]] == dst[b[0]] && Agree(a[1..], b[1..], src, dst)
  {
    assert a == [a[0]] + a[1..] && b == [b[0]] + b[1..];
  }

  /** xattr_equal_at: the two-index loop over both sorted sets. */
  method XattrEqualAt(o: Rules, sv: seq<Attr>, dv: seq<Attr>, src: Xattrs, dst: Xattrs)
    returns (equal: bool)
    requires Lists(sv, src.Keys) && Lists(dv, dst.Keys)
    ensures equal <==> Equal(o, src, dst)
  {
    KeptAgreeIff(o, sv, dv, src, dst);
    KeptWhole(o, sv);
    KeptWhole(o, dv);
    var i, j := 0, 0;
    while i < |sv| || j < |dv|
      invariant 0 <= i <= |sv| && 0 <= j <= |dv|
      invariant Equal(o, src, dst) <==> AgreeFrom(o, sv, i, dv, j, src, dst)
      decreases |sv| - i + |dv| - j
    {
      if i < |sv| && o.category(sv[i]) == Ignore {
        KeptIgnores(o, sv, i);
        i := i + 1;
        continue;
      }
      if j < |dv| && o.category(dv[j]) == Ignore {
        KeptIgnores(o, dv, j);
        j := j + 1;
        continue;
      }
      if i == |sv| || j == |dv| {
        return false; // one side has extra managed attributes
      }
      assert sv[i] in sv && dv[j] in dv;
      BothKept(o, sv, i, dv, j, src, dst);
      if sv[i] != dv[j] || src[sv[i]] != dst[dv[j]] {
        return false;
      }
      i, j := i + 1, j + 1;
    }
    return true;
  }

  /** What is left of both listings agrees. */
  ghost predicate AgreeFrom(o: Rules, sv: seq<Attr>, i: nat, dv: seq<Attr>, j: nat, src: Xattrs, dst: Xattrs) {
    Agree(KeptFrom(o, sv, i), KeptFrom(o, dv, j), src, dst)
  }

  lemma KeptWhole(o: Rules, v: seq<Attr>)
    ensures KeptFrom(o, v, 0) == Kept(o, v)
  {
    KeptFromIs(o, v, 0);
    assert v[0..] == v;
  }

  lemma KeptIgnores(o: Rules, v: seq<Attr>, i: nat)
    requires i < |v| && o.category(v[i]) == Ignore
    ensures KeptFrom(o, v, i) == KeptFrom(o, v, i + 1)
  {
    assert [] + KeptFrom(o, v, i + 1) == KeptFrom(o, v, i + 1);
  }

  lemma BothKept(o: Rules, sv: seq<Attr>, i: nat, dv: seq<Attr>, j: nat, src: Xattrs, dst: Xattrs)
    requires i < |sv| && j < |dv| && sv[i] in src && dv[j] in dst
    requires o.category(sv[i]) != Ignore && o.category(dv[j]) != Ignore
    ensures AgreeFrom(o, sv, i, dv, j, src, dst) <==>
              sv[i] == dv[j] && src[sv[i]] == dst[dv[j]] && AgreeFrom(o, sv, i + 1, dv, j + 1, src, dst)
  {
    KeptCons(sv[i], KeptFrom(o, sv, i + 1));
    KeptCons(dv[j], KeptFrom(o, dv, j + 1));
    AgreeStep(KeptFrom(o, sv, i), KeptFrom(o, dv, j), src, dst);
  }

  method InListing(v: seq<Attr>, a: Attr) returns (found: bool)
    ensures found <==> a in v
  {
    for i := 0 to |v|
      invariant a !in v[..i]
    {
      if v[i] == a {
        return true;
      }
    }
    return false;
  }

  /** xcopy: one pass over the source set, one over the destination set read
      before anything was written. */
  method XCopy(o: Rules, sv: seq<Attr>, dv: seq<Attr>, src: Xattrs, dst: Xattrs)
    returns (out: Xattrs)
    requires Lists(sv, src.Keys) && Lists(dv, dst.Keys)
    ensures out == Copied(o, src, dst)
  {
    out := dst;
    for i := 0 to |sv|
      invariant forall a :: a in out <==> a in dst || (a in sv[..i] && Written(o, a))
      invariant forall a :: a in out ==>
                out[a] == if a in src && a in sv[..i] && Written(o, a) then src[a] else dst[a]
    {
      assert sv[..i + 1] == sv[..i] + [sv[i]];
      assert sv[i] in sv;
      if Written(o, sv[i]) {
        out := out[sv[i] := src[sv[i]]];
      }
    }
    assert sv[..|sv|] == sv;
    out := RemoveStale(o, sv, dv, src, dst, out);
  }

  /** The second pass of xcopy. */
  method RemoveStale(o: Rules, sv: seq<Attr>, dv: seq<Attr>, src: Xattrs, ghost dst: Xattrs, set_: Xattrs)
    returns (out: Xattrs)
    requires Lists(sv, src.Keys) && Lists(dv, dst.Keys)
    requires set_ == dst + map a | a in src && Written(o, a) :: src[a]
    ensures out == Copied(o, src, dst)
  {
    out := set_;
    for j := 0 to |dv|
      invariant forall a :: a in out <==>
                a in set_ && (a in src || o.category(a) == Ignore || a !in dv[..j])
      invariant forall a :: a in out ==> out[a] == set_[a]
    {
      assert dv[..j + 1] == dv[..j] + [dv[j]];
      if o.category(dv[j]) != Ignore {
        var inSrc := InListing(sv, dv[j]);
        if !inSrc {
          out := out - {dv[j]};
        }
      }
    }
    assert dv[..|dv|] == dv;
  }
}
