/** Domain names: absolute, case-folded, leftmost label first; the root is []. */
module Names {

  type Label = string

  type Name = seq<Label>

  const ROOT: Name := []
  const STAR: Label := "*"

  /** Octets the name takes on the wire, with the closing root octet. */
  function WireLength(n: Name): nat {
    if n == [] then 1 else 1 + |n[0]| + WireLength(n[1..])
  }

  predicate ValidLabel(l: Label) {
    1 <= |l| <= 63
  }

  /** Sections 2.3.4 and 3.1 of RFC 1035. */
  predicate ValidName(n: Name) {
    && (forall i :: 0 <= i < |n| ==> ValidLabel(n[i]))
    && WireLength(n) <= 255
  }

  /** `origin` encloses `n`: its labels are the last labels of `n`. */
  predicate IsSuffix(origin: Name, n: Name) {
    |origin| <= |n| && n[|n| - |origin|..] == origin
  }

  /** The label count that zone selection uses: a leading `*` is not counted. */
  function NumLabels(n: Name): nat {
    if n != [] && n[0] == STAR then |n| - 1 else |n|
  }

  /** Two suffixes of one name that have the same length are the same name. */
  lemma SuffixesDiffer(a: Name, b: Name, n: Name)
    requires IsSuffix(a, n) && IsSuffix(b, n)
    ensures |a| == |b| <==> a == b
    ensures |a| <= |b| ==> IsSuffix(a, b)
  {
    if |a| <= |b| {
      assert b[|b| - |a|..] == n[|n| - |b|..][|b| - |a|..] == n[|n| - |a|..];
    }
  }

  lemma {:induction false} WireLengthConcat(a: Name, b: Name)
    ensures WireLength(a + b) == WireLength(a) + WireLength(b) - 1
  {
    if a == [] {
      assert a + b == b;
    } else {
      assert (a + b)[1..] == a[1..] + b;
      WireLengthConcat(a[1..], b);
    }
  }

  // ----- canonical order (section 6.1 of RFC 4034) -----

  /** Labels compare octet by octet; a proper prefix comes first. */
  predicate LabelLess(a: Label, b: Label) {
    b != [] && (a == [] || a[0] < b[0] || (a[0] == b[0] && LabelLess(a[1..], b[1..])))
  }

  /** Names compare label by label from the root end; an enclosing name comes first. */
  predicate NameLess(a: Name, b: Name) {
    && b != []
    && (a == []
        || LabelLess(a[|a| - 1], b[|b| - 1])
        || (a[|a| - 1] == b[|b| - 1] && NameLess(a[..|a| - 1], b[..|b| - 1])))
  }

  predicate NameLeq(a: Name, b: Name) {
    a == b || NameLess(a, b)
  }

  lemma {:induction false} LabelLessTransitive(a: Label, b: Label, c: Label)
    requires LabelLess(a, b) && LabelLess(b, c)
    ensures LabelLess(a, c)
  {
    if a != [] && a[0] == b[0] == c[0] {
      LabelLessTransitive(a[1..], b[1..], c[1..]);
    }
  }

  lemma {:induction false} LabelLessTotal(a: Label, b: Label)
    ensures a == b <==> !LabelLess(a, b) && !LabelLess(b, a)
    ensures !(LabelLess(a, b) && LabelLess(b, a))
  {
    if a != [] && b != [] {
      LabelLessTotal(a[1..], b[1..]);
      assert a == [a[0]] + a[1..] && b == [b[0]] + b[1..];
    }
  }

  lemma {:induction false} NameLessTransitive(a: Name, b: Name, c: Name)
    requires NameLess(a, b) && NameLess(b, c)
    ensures NameLess(a, c)
  {
    if a != [] {
      var la, lb, lc := a[|a| - 1], b[|b| - 1], c[|c| - 1];
      if LabelLess(la, lb) && LabelLess(lb, lc) {
        LabelLessTransitive(la, lb, lc);
      } else if la == lb == lc {
        NameLessTransitive(a[..|a| - 1], b[..|b| - 1], c[..|c| - 1]);
      }
    }
  }

  /** The order is strict and total: exactly one of a < b, a == b, b < a holds. */
  lemma {:induction false} NameLessTotal(a: Name, b: Name)
    ensures a == b <==> !NameLess(a, b) && !NameLess(b, a)
    ensures !(NameLess(a, b) && NameLess(b, a))
  {
    if a != [] && b != [] {
      var la, lb := a[|a| - 1], b[|b| - 1];
      LabelLessTotal(la, lb);
      NameLessTotal(a[..|a| - 1], b[..|b| - 1]);
      assert a == a[..|a| - 1] + [la] && b == b[..|b| - 1] + [lb];
    }
  }

  // ----- the same order by position -----

  /** The first `k` octets agree, and there `a` ends or has the smaller octet. */
  ghost predicate LabelDiffers(a: Label, b: Label, k: int) {
    && 0 <= k <= |a| && k < |b|
    && (forall i :: 0 <= i < k ==> a[i] == b[i])
    && (k == |a| || a[k] < b[k])
  }

  lemma {:induction false} LabelLessExact(a: Label, b: Label)
    ensures LabelLess(a, b) <==> exists k :: LabelDiffers(a, b, k)
  {
    if a != [] && b != [] && a[0] == b[0] {
      LabelLessExact(a[1..], b[1..]);
      if k :| LabelDiffers(a[1..], b[1..], k) {
        forall i | 0 <= i < k + 1 ensures a[i] == b[i] {
          assert i > 0 ==> a[1..][i - 1] == b[1..][i - 1];
        }
        assert LabelDiffers(a, b, k + 1);
      }
      if k :| LabelDiffers(a, b, k) {
        assert LabelDiffers(a[1..], b[1..], k - 1);
      }
    } else if LabelLess(a, b) {
      assert LabelDiffers(a, b, 0);
    }
  }

  /** The `i`-th label counted from the root. */
  function FromRoot(n: Name, i: nat): Label
    requires i < |n|
  {
    n[|n| - 1 - i]
  }

  /** The last `k` labels agree, and above them `a` ends or has the smaller label. */
  ghost predicate NameDiffers(a: Name, b: Name, k: int) {
    && 0 <= k <= |a| && k < |b|
    && (forall i :: 0 <= i < k ==> FromRoot(a, i) == FromRoot(b, i))
    && (k == |a| || exists j :: LabelDiffers(FromRoot(a, k), FromRoot(b, k), j))
  }

  lemma {:induction false} NameLessExact(a: Name, b: Name)
    ensures NameLess(a, b) <==> exists k :: NameDiffers(a, b, k)
  {
    if a == [] || b == [] {
      assert b != [] ==> NameDiffers(a, b, 0);
    } else {
      LabelLessExact(FromRoot(a, 0), FromRoot(b, 0));
      LabelLessTotal(FromRoot(a, 0), FromRoot(b, 0));
      if LabelLess(FromRoot(a, 0), FromRoot(b, 0)) {
        assert NameDiffers(a, b, 0);
      } else if FromRoot(a, 0) == FromRoot(b, 0) {
        NameLessExact(a[..|a| - 1], b[..|b| - 1]);
        ShiftDifference(a, b);
      } else if k :| NameDiffers(a, b, k) {
        DifferLater(a, b, k);
      }
    }
  }

  lemma DifferLater(a: Name, b: Name, k: int)
    requires a != [] && NameDiffers(a, b, k)
    ensures FromRoot(a, 0) == FromRoot(b, 0) || exists j :: LabelDiffers(FromRoot(a, 0), FromRoot(b, 0), j)
  {
  }

  lemma ShiftDifference(a: Name, b: Name)
    requires a != [] && b != [] && FromRoot(a, 0) == FromRoot(b, 0)
    ensures var a', b' := a[..|a| - 1], b[..|b| - 1];
            (exists k :: NameDiffers(a, b, k)) <==> exists k :: NameDiffers(a', b', k)
  {
    var a', b' := a[..|a| - 1], b[..|b| - 1];
    if k :| NameDiffers(a', b', k) {
      forall i | 0 <= i < k + 1 ensures FromRoot(a, i) == FromRoot(b, i) {
        assert i > 0 ==> FromRoot(a', i - 1) == FromRoot(b', i - 1);
      }
      assert k < |a'| ==> FromRoot(a, k + 1) == FromRoot(a', k) && FromRoot(b, k + 1) == FromRoot(b', k);
      assert NameDiffers(a, b, k + 1);
    }
    if k :| NameDiffers(a, b, k) {
      LabelNotBelowItself(FromRoot(a, 0));
      assert k > 0;
      forall i | 0 <= i < k - 1 ensures FromRoot(a', i) == FromRoot(b', i) {
        assert FromRoot(a, i + 1) == FromRoot(b, i + 1);
      }
      assert k < |a| ==> FromRoot(a, k) == FromRoot(a', k - 1) && FromRoot(b, k) == FromRoot(b', k - 1);
      assert NameDiffers(a', b', k - 1);
    }
  }

  lemma LabelNotBelowItself(l: Label)
    ensures !exists j :: LabelDiffers(l, l, j)
  {
    LabelLessExact(l, l);
    LabelLessTotal(l, l);
  }

  /** The names that section 6.1 of RFC 4034 lists in order, in lower case. */
  lemma CanonicalExample()
    ensures NameLess(["example"], ["a", "example"])
    ensures NameLess(["a", "example"], ["yljkjljk", "a", "example"])
    ensures NameLess(["yljkjljk", "a", "example"], ["z", "a", "example"])
    ensures NameLess(["z", "a", "example"], ["zabc", "a", "example"])
    ensures NameLess(["zabc", "a", "example"], ["z", "example"])
    ensures NameLess(["z", "example"], [[1 as char], "z", "example"])
    ensures NameLess([[1 as char], "z", "example"], [STAR, "z", "example"])
    ensures NameLess([STAR, "z", "example"], [[200 as char], "z", "example"])
  {
    Before(["example"], ["a", "example"], 1, 0);
    Before(["a", "example"], ["yljkjljk", "a", "example"], 2, 0);
    Before(["yljkjljk", "a", "example"], ["z", "a", "example"], 2, 0);
    Before(["z", "a", "example"], ["zabc", "a", "example"], 2, 1);
    Before(["zabc", "a", "example"], ["z", "example"], 1, 0);
    Before(["z", "example"], [[1 as char], "z", "example"], 2, 0);
    Before([[1 as char], "z", "example"], [STAR, "z", "example"], 2, 0);
    Before([STAR, "z", "example"], [[200 as char], "z", "example"], 2, 0);
  }

  lemma Before(a: Name, b: Name, k: nat, j: nat)
    requires k <= |a| && k < |b| && forall i :: 0 <= i < k ==> FromRoot(a, i) == FromRoot(b, i)
    requires k < |a| ==> LabelDiffers(FromRoot(a, k), FromRoot(b, k), j)
    ensures NameLess(a, b)
  {
    assert NameDiffers(a, b, k);
    NameLessExact(a, b);
  }
}
