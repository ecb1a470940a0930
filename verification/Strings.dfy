/** The byte-wise order Go uses on strings (`strings.Compare`, `<`). */
module Strings {

  predicate Less(a: string, b: string) {
    b != [] && (a == [] || a[0] < b[0] || (a[0] == b[0] && Less(a[1..], b[1..])))
  }

  lemma {:induction false} LessIrreflexive(a: string)
    ensures !Less(a, a)
  {
    if a != [] { LessIrreflexive(a[1..]); }
  }

  lemma {:induction false} LessTransitive(a: string, b: string, c: string)
    requires Less(a, b) && Less(b, c)
    ensures Less(a, c)
  {
    if a != [] && a[0] == b[0] == c[0] { LessTransitive(a[1..], b[1..], c[1..]); }
  }

  lemma {:induction false} LessTotal(a: string, b: string)
    ensures Less(a, b) || Less(b, a) || a == b
  {
    if a != [] && b != [] {
      LessTotal(a[1..], b[1..]);
      assert a == [a[0]] + a[1..] && b == [b[0]] + b[1..];
    }
  }

  lemma {:induction false} LessAsymmetric(a: string, b: string)
    requires Less(a, b)
    ensures !Less(b, a) && a != b
  {
    LessIrreflexive(a);
    if Less(b, a) { LessTransitive(a, b, a); }
  }

  /** Where two strings first part, the smaller has ended or has the smaller character. */
  lemma {:induction false} LessExactly(a: string, b: string)
    ensures Less(a, b) <==>
            exists k: nat :: k < |b| && k <= |a| && a[..k] == b[..k] && (k == |a| || a[k] < b[k])
  {
    if a == "" || b == "" {
      assert a[..0] == b[..0];
    } else {
      LessExactly(a[1..], b[1..]);
      if Less(a, b) {
        if a[0] < b[0] {
          assert a[..0] == b[..0];
        } else {
          var k: nat :| && k < |b| - 1 && k <= |a| - 1 && a[1..][..k] == b[1..][..k]
                        && (k == |a| - 1 || a[1..][k] < b[1..][k]);
          assert a[..k + 1] == [a[0]] + a[1..][..k] == b[..k + 1];
        }
      }
      if k: nat :| k < |b| && k <= |a| && a[..k] == b[..k] && (k == |a| || a[k] < b[k]) {
        if k > 0 {
          assert a[0] == a[..k][0] == b[0];
          assert a[1..][..k - 1] == a[..k][1..] == b[1..][..k - 1];
        }
      }
    }
  }
}
