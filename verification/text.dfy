/** String helpers: decimal printing of port numbers, and the object-name to
    module-file mapping of distributed-app.js. */
module Text {

  const Digits: string := "0123456789"

  predicate IsDigit(c: char) {
    '0' <= c <= '9'
  }

  predicate AllDigits(s: string) {
    forall i :: 0 <= i < |s| ==> IsDigit(s[i])
  }

  function DigitValue(c: char): (d: nat)
    requires IsDigit(c)
    ensures d < 10 && Digits[d] == c
  {
    (c as int - '0' as int) as nat
  }

  /** JavaScript's `'' + n` for a non-negative integer: its decimal digits. */
  function NatToString(n: nat): (s: string)
    ensures |s| >= 1
    ensures AllDigits(s)
    ensures s[0] == '0' ==> n == 0
    decreases n
  {
    if n < 10 then [Digits[n]] else NatToString(n / 10) + [Digits[n % 10]]
  }

  /** Reads a string of decimal digits back as a number. */
  function ParseNat(s: string): nat
    requires AllDigits(s)
    decreases |s|
  {
    if |s| == 0 then 0 else ParseNat(s[..|s| - 1]) * 10 + DigitValue(s[|s| - 1])
  }

  /** Printing a number in decimal and reading it back gives the number. */
  lemma {:induction false} ParseNatToString(n: nat)
    ensures ParseNat(NatToString(n)) == n
    decreases n
  {
    var s := NatToString(n);
    if n < 10 {
      assert s[..|s| - 1] == [];
    } else {
      ParseNatToString(n / 10);
      assert s[..|s| - 1] == NatToString(n / 10);
    }
  }

  /** Distinct numbers print as distinct strings. */
  lemma NatToStringInjective(a: nat, b: nat)
    ensures NatToString(a) == NatToString(b) ==> a == b
  {
    ParseNatToString(a);
    ParseNatToString(b);
  }

  /** `name.split('/')[0]`: the part of `name` before its first '/'. */
  function FirstSegment(name: string): (seg: string)
    ensures '/' !in seg
    ensures seg <= name
    ensures |seg| < |name| ==> name[|seg|] == '/'
    decreases |name|
  {
    if |name| == 0 || name[0] == '/' then [] else [name[0]] + FirstSegment(name[1..])
  }

  /** The `APPS_LOCATION` directory holding the object modules. */
  const AppsLocation: string := "objects"

  /** getObjectFilename: the module file implementing object `name`; the
      `/id` part of a composite name `kind/id` is ignored. */
  function ObjectFilename(name: string): (file: string)
    ensures 13 <= |file| && file[..10] == "./objects/" && file[|file| - 3..] == ".js"
    ensures var stem := file[10..|file| - 3];
      && '/' !in stem && stem <= name
      && (|stem| < |name| ==> name[|stem|] == '/')
  {
    var file := "./" + AppsLocation + "/" + FirstSegment(name) + ".js";
    assert file[10..|file| - 3] == FirstSegment(name);
    file
  }

  /** The part before the first '/' is unique: a prefix without '/' that is
      followed by '/' or ends the name is exactly FirstSegment. */
  lemma {:induction false} FirstSegmentUnique(name: string, seg: string)
    requires '/' !in seg && seg <= name
    requires |seg| < |name| ==> name[|seg|] == '/'
    ensures FirstSegment(name) == seg
    decreases |name|
  {
    if |seg| > 0 {
      assert name[0] == seg[0];
      FirstSegmentUnique(name[1..], seg[1..]);
    }
  }

  /** Every instance `kind/id` of an object kind loads the same module file
      as the plain kind. */
  lemma CompositeNameSharesFile(kind: string, id: string)
    requires '/' !in kind
    ensures ObjectFilename(kind + "/" + id) == ObjectFilename(kind)
  {
    FirstSegmentUnique(kind + "/" + id, kind);
    FirstSegmentUnique(kind, kind);
  }

  /** Two names load the same file exactly when their first segments agree. */
  lemma ObjectFilenameMatch(a: string, b: string)
    ensures ObjectFilename(a) == ObjectFilename(b) <==> FirstSegment(a) == FirstSegment(b)
  {
    var pre := "./" + AppsLocation + "/";
    var sa, sb := FirstSegment(a), FirstSegment(b);
    if ObjectFilename(a) == ObjectFilename(b) {
      assert pre + sa + ".js" == pre + sb + ".js";
      assert |sa| == |sb|;
      forall i | 0 <= i < |sa|
        ensures sa[i] == sb[i]
      {
        assert (pre + sa + ".js")[|pre| + i] == sa[i];
        assert (pre + sb + ".js")[|pre| + i] == sb[i];
      }
    }
  }
}
