/** The order the tree of tests is built with. */
module TestRecords {
  import opened RbShape
  import opened Wrappers

  function At(s: CString): int { if s == "" then 0 else s[0] as int }

  /** strcmp: the difference at the first position where the strings differ, terminators included. */
  function Strcmp(a: CString, b: CString): int {
    if At(a) != At(b) || a == "" then At(a) - At(b) else Strcmp(a[1..], b[1..])
  }

  /** cldm_testrec_compare */
  function Compare(l: Key, r: Key): int {
    var diff := Strcmp(l.file, r.file);
    -1 * (diff + (if diff == 0 then 1 else 0) * Strcmp(l.name, r.name))
  }

  lemma {:induction false} StrcmpAnti(a: CString, b: CString)
    ensures Strcmp(a, b) == -Strcmp(b, a)
  {
    if At(a) == At(b) && a != "" { StrcmpAnti(a[1..], b[1..]); }
  }

  lemma {:induction false} StrcmpZero(a: CString, b: CString)
    ensures Strcmp(a, b) == 0 <==> a == b
  {
    if At(a) == At(b) && a != "" {
      assert b != "";
      StrcmpZero(a[1..], b[1..]);
      if a[1..] == b[1..] {
        assert a == [a[0]] + a[1..] && b == [b[0]] + b[1..];
      }
    }
  }

  lemma {:induction false} StrcmpTrans(a: CString, b: CString, c: CString)
    requires Strcmp(a, b) < 0 && Strcmp(b, c) < 0
    ensures Strcmp(a, c) < 0
  {
    if At(a) == At(b) == At(c) && a != "" { StrcmpTrans(a[1..], b[1..], c[1..]); }
  }

  /** `a` stands before `b` in a dictionary: after a common beginning it ends, or goes on with a smaller character. */
  ghost predicate Precedes(a: string, b: string) {
    exists k :: 0 <= k <= |a| && k < |b| && a[..k] == b[..k] && (k == |a| || a[k] < b[k])
  }

  /** Where a record belongs: files in dictionary order, and the tests of a file in dictionary order. */
  ghost predicate Earlier(l: Key, r: Key) {
    Precedes(l.file, r.file) || (l.file == r.file && Precedes(l.name, r.name))
  }

  /** A common first character may be left out. */
  lemma PrecedesNext(a: string, b: string)
    requires a != "" && b != "" && a[0] == b[0]
    ensures Precedes(a, b) <==> Precedes(a[1..], b[1..])
  {
    var s, t := a[1..], b[1..];
    if Precedes(s, t) {
      var k :| 0 <= k <= |s| && k < |t| && s[..k] == t[..k] && (k == |s| || s[k] < t[k]);
      assert a[..k + 1] == [a[0]] + s[..k] && b[..k + 1] == [a[0]] + t[..k];
    }
    if Precedes(a, b) {
      var k :| 0 <= k <= |a| && k < |b| && a[..k] == b[..k] && (k == |a| || a[k] < b[k]);
      assert k > 0;
      assert s[..k - 1] == a[..k][1..] && t[..k - 1] == b[..k][1..];
    }
  }

  lemma DifferAtOnce(a: string, b: string)
    requires a != "" && b != "" && a[0] != b[0]
    ensures Precedes(a, b) <==> a[0] < b[0]
  {
    assert a[..0] == b[..0];
    if Precedes(a, b) {
      var k :| 0 <= k <= |a| && k < |b| && a[..k] == b[..k] && (k == |a| || a[k] < b[k]);
      assert k == 0;
    }
  }

  lemma PrecedesEmpty(a: string, b: string)
    requires a == "" || b == ""
    ensures Precedes(a, b) <==> a == "" && b != ""
  {
    assert a[..0] == b[..0];
  }

  lemma {:induction false} StrcmpIsDictionary(a: CString, b: CString)
    ensures Strcmp(a, b) < 0 <==> Precedes(a, b)
  {
    hide Precedes;
    if a == "" || b == "" {
      PrecedesEmpty(a, b);
    } else if a[0] == b[0] {
      PrecedesNext(a, b);
      StrcmpIsDictionary(a[1..], b[1..]);
    } else {
      DifferAtOnce(a, b);
    }
  }

  /** Records are ordered by file, then by name, and only equal (file, name) pairs compare equal. */
  lemma CompareIsLexicographic(l: Key, r: Key)
    ensures Compare(l, r) > 0 <==> Earlier(l, r)
    ensures Compare(l, r) == 0 <==> l == r
    ensures Compare(l, r) < 0 <==> Earlier(r, l)
  {
    hide Strcmp, Precedes;
    StrcmpZero(l.file, r.file);
    StrcmpZero(l.name, r.name);
    StrcmpIsDictionary(l.file, r.file);
    StrcmpIsDictionary(l.name, r.name);
    StrcmpIsDictionary(r.file, l.file);
    StrcmpIsDictionary(r.name, l.name);
    StrcmpAnti(l.file, r.file);
    StrcmpAnti(l.name, r.name);
  }

  lemma CompareIsOrder()
    ensures TotalOrder(Compare)
  {
    forall a: Key, b: Key
      ensures Compare(a, b) == 0 <==> a == b
      ensures Compare(a, b) > 0 <==> Compare(b, a) < 0
    {
      CompareIsLexicographic(a, b);
      CompareIsLexicographic(b, a);
    }
    forall a: Key, b: Key, c: Key | Compare(a, b) > 0 && Compare(b, c) > 0
      ensures Compare(a, c) > 0
    {
      CompareTrans(a, b, c);
    }
  }

  lemma CompareTrans(a: Key, b: Key, c: Key)
    requires Compare(a, b) > 0 && Compare(b, c) > 0
    ensures Compare(a, c) > 0
  {
    hide Strcmp;
    StrcmpZero(a.file, b.file);
    StrcmpZero(b.file, c.file);
    StrcmpZero(a.file, c.file);
    if Strcmp(a.file, b.file) < 0 && Strcmp(b.file, c.file) < 0 { StrcmpTrans(a.file, b.file, c.file); }
    if Strcmp(a.name, b.name) < 0 && Strcmp(b.name, c.name) < 0 { StrcmpTrans(a.name, b.name, c.name); }
  }
}
