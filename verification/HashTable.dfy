/** The open-addressing table of byte-string keys. The hash function is a parameter. */
module HashTable {
  import opened Primes

  type Bytes = seq<bv8>

  /** An internal entry: never used, holding a key, or once used and removed. Of a removed entry the size of the key
      remains, but its pointer has been overwritten by the status. */
  datatype Slot = Free | Vacant(size: nat) | Taken(key: Bytes)

  /** The slot at distance `d` along the probe path that starts at `h`. */
  function At(h: nat, d: nat, cap: nat): (i: nat)
    requires h < cap && d < cap
    ensures i < cap
  { if h + d < cap then h + d else h + d - cap }

  /** How far along its path the slot `i` lies. */
  function Dist(h: nat, i: nat, cap: nat): (d: nat)
    requires h < cap && i < cap
    ensures d < cap && At(h, d, cap) == i
  { if i >= h then i - h else i + cap - h }

  lemma DistAt(h: nat, d: nat, cap: nat)
    requires h < cap && d < cap
    ensures Dist(h, At(h, d, cap), cap) == d
  {
  }

  lemma NextAt(h: nat, d: nat, cap: nat)
    requires h < cap && d + 1 < cap
    ensures At(h, d + 1, cap) == (At(h, d, cap) + 1) % cap
  {
  }

  function KeysOf(s: seq<Slot>): set<Bytes> { set i | 0 <= i < |s| && s[i].Taken? :: s[i].key }

  ghost function Used(s: seq<Slot>): set<nat> { set i: nat | i < |s| && s[i] != Free }

  predicate NoneVacant(s: seq<Slot>) { forall i :: 0 <= i < |s| ==> !s[i].Vacant? }

  ghost predicate Distinct(s: seq<Slot>) {
    forall i, j :: 0 <= i < j < |s| && s[i].Taken? && s[j].Taken? ==> s[i].key != s[j].key
  }

  /** No free slot lies on the probe path before a key. */
  ghost predicate Chained(s: seq<Slot>, hash: Bytes -> nat)
  {
    forall i, d :: 0 <= i < |s| && s[i].Taken? && 0 <= d < |s| && d < Dist(hash(s[i].key) % |s|, i, |s|) ==>
      s[At(hash(s[i].key) % |s|, d, |s|)] != Free
  }

  /** `d` is how far a probe for `key` gets: nothing before stops it. */
  ghost predicate Reaches(s: seq<Slot>, h: nat, key: Bytes, reuse: bool, d: nat)
    requires h < |s|
  {
    d <= |s| && forall e :: 0 <= e < d ==>
      s[At(h, e, |s|)] != Free && s[At(h, e, |s|)] != Taken(key) && (reuse ==> !s[At(h, e, |s|)].Vacant?)
  }

  predicate Stops(s: seq<Slot>, i: nat, key: Bytes, reuse: bool)
    requires i < |s|
  { s[i] == Free || s[i] == Taken(key) || (reuse && s[i].Vacant?) }

  /** A probe that does not reuse vacant slots finds the key exactly when it is in the table. */
  lemma ProbeExact(s: seq<Slot>, hash: Bytes -> nat, key: Bytes, d: nat)
    requires 0 < |s| && d < |s| && Chained(s, hash) && Reaches(s, hash(key) % |s|, key, false, d)
    requires Stops(s, At(hash(key) % |s|, d, |s|), key, false)
    ensures s[At(hash(key) % |s|, d, |s|)] == Taken(key) <==> key in KeysOf(s)
  {
    var h := hash(key) % |s|;
    if key in KeysOf(s) {
      var i :| 0 <= i < |s| && s[i].Taken? && s[i].key == key;
      var di := Dist(h, i, |s|);
      assert s[At(h, di, |s|)] == Taken(key);
      assert d <= di;
    }
  }

  /** A probe that reuses vacant slots sees a key in the table if and only if no vacant slot precedes it on
      its path; otherwise it stops at the vacant slot, and the key would be entered twice. */
  lemma ReuseExact(s: seq<Slot>, hash: Bytes -> nat, i: nat, d: nat)
    requires i < |s| && s[i].Taken? && Distinct(s) && Chained(s, hash)
    requires var key := s[i].key; var h := hash(key) % |s|;
      d < |s| && Reaches(s, h, key, true, d) && Stops(s, At(h, d, |s|), key, true)
    ensures var key := s[i].key; var h := hash(key) % |s|;
      s[At(h, d, |s|)] == Taken(key) <==> forall e :: 0 <= e < Dist(h, i, |s|) ==> !s[At(h, e, |s|)].Vacant?
  {
    var key := s[i].key;
    var h := hash(key) % |s|;
    var di := Dist(h, i, |s|);
    DistAt(h, d, |s|);
    assert s[At(h, di, |s|)] == Taken(key);
    assert d <= di;
    if s[At(h, d, |s|)] == Taken(key) {
      assert At(h, d, |s|) == i;
    }
  }

  /** A key that a probe for it did not find may be put where the probe stopped. */
  lemma PutKeeps(s: seq<Slot>, hash: Bytes -> nat, key: Bytes, d: nat)
    requires 0 < |s| && d < |s| && Distinct(s) && Chained(s, hash) && key !in KeysOf(s)
    requires Reaches(s, hash(key) % |s|, key, true, d) && !s[At(hash(key) % |s|, d, |s|)].Taken?
    ensures var s' := s[At(hash(key) % |s|, d, |s|) := Taken(key)];
      && Distinct(s') && Chained(s', hash) && KeysOf(s') == KeysOf(s) + {key}
  {
    var h := hash(key) % |s|;
    var k := At(h, d, |s|);
    var s' := s[k := Taken(key)];
    DistAt(h, d, |s|);
    assert forall i :: 0 <= i < |s| && s[i].Taken? ==> s[i].key in KeysOf(s);
    assert KeysOf(s') == KeysOf(s) + {key} by {
      forall x | x in KeysOf(s) + {key} ensures x in KeysOf(s') {
        if x == key { assert s'[k].Taken? && s'[k].key == key; }
        else {
          var i :| 0 <= i < |s| && s[i].Taken? && s[i].key == x;
          assert s'[i] == s[i];
        }
      }
    }
    forall i, e | 0 <= i < |s'| && s'[i].Taken? && 0 <= e < |s'| && e < Dist(hash(s'[i].key) % |s'|, i, |s'|)
      ensures s'[At(hash(s'[i].key) % |s'|, e, |s'|)] != Free
    {
      if i != k { assert s[At(hash(s[i].key) % |s|, e, |s|)] != Free; }
    }
  }

  /** The key lies in slot `i` with a vacant slot before it on its path. */
  ghost predicate Shadowed(s: seq<Slot>, hash: Bytes -> nat, key: Bytes, i: nat)
    requires i < |s|
  {
    var h := hash(key) % |s|;
    s[i] == Taken(key) && exists e :: 0 <= e < Dist(h, i, |s|) && s[At(h, e, |s|)].Vacant?
  }

  /** What an insertion of the entry `x` whose probe stops at slot `k` leaves behind. */
  function Stored(s: seq<Slot>, k: nat, x: Slot): (r: seq<Slot>)
    requires k < |s|
    ensures |r| == |s|
  { if s[k].Taken? then s else s[k := x] }

  function Entered(s: seq<Slot>, k: nat, key: Bytes): (r: seq<Slot>)
    requires k < |s|
    ensures |r| == |s|
  { Stored(s, k, Taken(key)) }

  /** The insertion answers correctly, keeps every key findable and each one once, adds exactly `key`, and leaves
      a free slot, at which probes for absent keys can stop. */
  ghost predicate RightlyEntered(s: seq<Slot>, hash: Bytes -> nat, k: nat, key: Bytes)
    requires k < |s|
  {
    var s' := Entered(s, k, key);
    && (!s[k].Taken? <==> key !in KeysOf(s)) && KeysOf(s') == KeysOf(s) + {key}
    && Distinct(s') && Chained(s', hash) && |Used(s')| < |s'|
  }

  /** An insertion into a table with removed entries, without growth, is right if and only if the key does not
      lie behind a vacant slot and the insertion does not take the last free slot. */
  lemma InsertAfterRemoval(s: seq<Slot>, hash: Bytes -> nat, key: Bytes, d: nat)
    requires d < |s| && Distinct(s) && Chained(s, hash) && |Used(s)| < |s|
    requires Reaches(s, hash(key) % |s|, key, true, d) && Stops(s, At(hash(key) % |s|, d, |s|), key, true)
    ensures var k := At(hash(key) % |s|, d, |s|);
      && (RightlyEntered(s, hash, k, key) <==>
            (forall i :: 0 <= i < |s| ==> !Shadowed(s, hash, key, i)) && (s[k] == Free ==> |Used(s)| + 1 < |s|))
      && KeysOf(Entered(s, k, key)) == KeysOf(s) + {key}
  {
    var k := At(hash(key) % |s|, d, |s|);
    UsedStored(s, k, Taken(key));
    if key in KeysOf(s) {
      var i :| 0 <= i < |s| && s[i] == Taken(key);
      ReuseExact(s, hash, i, d);
      if !s[k].Taken? {
        assert Shadowed(s, hash, key, i);
        SameKeys(s, k, key);
      } else {
        assert s[k] == Taken(key);
        forall j | 0 <= j < |s|
          ensures !Shadowed(s, hash, key, j)
        {
          if s[j] == Taken(key) { assert j == i; }
        }
      }
    } else {
      PutKeeps(s, hash, key, d);
    }
  }

  lemma UsedStored(s: seq<Slot>, k: nat, x: Slot)
    requires k < |s| && x != Free
    ensures |Used(Stored(s, k, x))| == |Used(s)| + if s[k] == Free then 1 else 0
  {
    if s[k] == Free {
      assert Used(s[k := x]) == Used(s) + {k};
    } else {
      assert Used(Stored(s, k, x)) == Used(s);
    }
  }

  /** The first way to fail: the key lies in the slot after a vacant one. It is entered once more. */
  lemma ShadowedKey(hash: Bytes -> nat, key: Bytes) returns (s: seq<Slot>)
    requires hash(key) % 31 == 0
    ensures |s| == 31 && Distinct(s) && Chained(s, hash) && |Used(s)| + 1 < |s| && key in KeysOf(s)
    ensures Reaches(s, 0, key, true, 0) && Stops(s, 0, key, true) && Shadowed(s, hash, key, 1)
    ensures !Distinct(Entered(s, 0, key))
  {
    s := seq(31, i requires 0 <= i < 31 => if i == 0 then Vacant(0) else if i == 1 then Taken(key) else Free);
    assert s[1] == Taken(key) && s[At(0, 0, 31)] == Vacant(0);
    assert Used(s) == {0, 1};
    var s' := Entered(s, 0, key);
    assert s'[0] == s'[1] == Taken(key);
  }

  /** The second way to fail: every slot but one has been used and left, one key after the other, and the key
      takes the last free one. A probe for any other key never stops. */
  lemma LastFreeSlot(hash: Bytes -> nat, key: Bytes, other: Bytes) returns (s: seq<Slot>)
    requires hash(key) % 31 == 30 && other != key
    ensures |s| == 31 && Distinct(s) && Chained(s, hash) && |Used(s)| < |s| && KeysOf(s) == {}
    ensures Reaches(s, 30, key, true, 0) && Stops(s, 30, key, true)
    ensures forall i :: 0 <= i < |s| ==> !Shadowed(s, hash, key, i)
    ensures var s' := Entered(s, 30, key);
      forall d :: 0 <= d < 31 ==> !Stops(s', At(hash(other) % 31, d, 31), other, false)
  {
    s := seq(31, i requires 0 <= i < 31 => if i == 30 then Free else Vacant(0));
    assert s[At(30, 0, 31)] == Free;
    assert s == s[..30] + [Free];
    assert 30 !in Used(s);
    UsedBelow(s, 30);
  }

  lemma UsedBelow(s: seq<Slot>, f: nat)
    requires f < |s| && s[f] == Free
    ensures |Used(s)| < |s|
  {
    AllUsed(seq(|s|, _ => Vacant(0)));
    var all := Used(seq(|s|, _ => Vacant(0)));
    assert Used(s) <= all - {f};
    Fewer(Used(s), all - {f});
    assert f in all;
  }

  lemma Fewer<T>(a: set<T>, b: set<T>)
    requires a <= b
    ensures |a| <= |b|
  {
    if a != {} {
      var x :| x in a;
      Fewer(a - {x}, b - {x});
    }
  }

  /** A probe for an absent key stops if and only if some slot is free. */
  lemma StopsAtFree(s: seq<Slot>, hash: Bytes -> nat, key: Bytes)
    requires 0 < |s| && key !in KeysOf(s)
    ensures (exists d :: 0 <= d < |s| && Stops(s, At(hash(key) % |s|, d, |s|), key, false)) <==> |Used(s)| < |s|
  {
    var h := hash(key) % |s|;
    if |Used(s)| < |s| {
      var f := SomeFree(s);
      var d := Dist(h, f, |s|);
      assert Stops(s, At(h, d, |s|), key, false);
    } else {
      forall d | 0 <= d < |s|
        ensures !Stops(s, At(h, d, |s|), key, false)
      {
        var i := At(h, d, |s|);
        if s[i] == Free { UsedBelow(s, i); }
        assert s[i] == Taken(key) ==> key in KeysOf(s);
      }
    }
  }

  /** The probe of an insertion stops at slot `k`. */
  ghost predicate Probed(s: seq<Slot>, hash: Bytes -> nat, key: Bytes, k: nat) {
    && k < |s| && Stops(s, k, key, true)
    && Reaches(s, hash(key) % |s|, key, true, Dist(hash(key) % |s|, k, |s|))
  }

  lemma ProbedAt(s: seq<Slot>, hash: Bytes -> nat, key: Bytes, d: nat)
    requires d < |s|
    requires Reaches(s, hash(key) % |s|, key, true, d) && Stops(s, At(hash(key) % |s|, d, |s|), key, true)
    ensures Probed(s, hash, key, At(hash(key) % |s|, d, |s|))
  {
    DistAt(hash(key) % |s|, d, |s|);
  }

  /** The key does not lie behind a vacant slot, and slot `k` is not the last free one. */
  ghost predicate CanEnter(s: seq<Slot>, hash: Bytes -> nat, k: nat, key: Bytes)
    requires k < |s|
  { (forall i :: 0 <= i < |s| ==> !Shadowed(s, hash, key, i)) && (s[k] == Free ==> |Used(s)| + 1 < |s|) }

  /** The size counts the keys if the answer is right. */
  lemma SizeEntered(s: seq<Slot>, hash: Bytes -> nat, k: nat, key: Bytes)
    requires k < |s|
    ensures RightlyEntered(s, hash, k, key) ==>
      |KeysOf(Entered(s, k, key))| == |KeysOf(s)| + if s[k].Taken? then 0 else 1
  {
    if RightlyEntered(s, hash, k, key) && s[k].Taken? { assert KeysOf(s) + {key} == KeysOf(s); }
  }

  /** Without vacant slots as many slots are used as there are keys. */
  lemma {:induction false} UsedAreKeys(s: seq<Slot>)
    requires Distinct(s) && NoneVacant(s)
    ensures |Used(s)| == |KeysOf(s)|
  {
    if s == [] {
      assert Used(s) == {} && KeysOf(s) == {};
    } else {
      var n := |s| - 1;
      var t := s[..n];
      assert s[n] in s && forall x :: x in t ==> x in s;
      UsedAreKeys(t);
      KeysGrow(s, n);
      assert s[..n + 1] == s;
      UsedSnoc(t, s[n]);
      assert s == t + [s[n]];
      if s[n].Taken? { NewKey(s, n); }
    }
  }

  lemma UsedSnoc(t: seq<Slot>, x: Slot)
    ensures |Used(t + [x])| == |Used(t)| + if x == Free then 0 else 1
  {
    if x == Free {
      assert Used(t + [x]) == Used(t);
    } else {
      assert Used(t + [x]) == Used(t) + {|t|};
    }
  }

  lemma NewKey(s: seq<Slot>, n: nat)
    requires n < |s| && Distinct(s) && s[n].Taken?
    ensures s[n].key !in KeysOf(s[..n])
  {
  }

  /** Without vacant slots and at most half full, an insertion is right. */
  lemma PristineEnters(s: seq<Slot>, hash: Bytes -> nat, key: Bytes, d: nat)
    requires d < |s| && Distinct(s) && Chained(s, hash) && NoneVacant(s) && |KeysOf(s)| + 1 <= |s| / 2
    requires Reaches(s, hash(key) % |s|, key, true, d) && Stops(s, At(hash(key) % |s|, d, |s|), key, true)
    ensures CanEnter(s, hash, At(hash(key) % |s|, d, |s|), key)
    ensures NoneVacant(Entered(s, At(hash(key) % |s|, d, |s|), key))
  {
    UsedAreKeys(s);
    var h := hash(key) % |s|;
    forall i | 0 <= i < |s|
      ensures !Shadowed(s, hash, key, i)
    {
      assert forall e :: 0 <= e < |s| ==> s[At(h, e, |s|)] in s;
    }
  }

  lemma SameKeys(s: seq<Slot>, k: nat, key: Bytes)
    requires k < |s| && !s[k].Taken? && key in KeysOf(s)
    ensures KeysOf(s[k := Taken(key)]) == KeysOf(s)
  {
    var s' := s[k := Taken(key)];
    forall x | x in KeysOf(s)
      ensures x in KeysOf(s')
    {
      var i :| 0 <= i < |s| && s[i].Taken? && s[i].key == x;
      assert s'[i] == s[i];
    }
  }

  lemma DropKeeps(s: seq<Slot>, hash: Bytes -> nat, k: nat, size: nat)
    requires k < |s| && s[k].Taken? && Distinct(s) && Chained(s, hash)
    ensures var s' := s[k := Vacant(size)];
      && Distinct(s') && Chained(s', hash) && KeysOf(s') == KeysOf(s) - {s[k].key} && Used(s') == Used(s)
  {
    var s' := s[k := Vacant(size)];
    forall x | x in KeysOf(s) - {s[k].key} ensures x in KeysOf(s') {
      var i :| 0 <= i < |s| && s[i].Taken? && s[i].key == x;
      assert s'[i] == s[i];
    }
    forall i, e | 0 <= i < |s'| && s'[i].Taken? && 0 <= e < |s'| && e < Dist(hash(s'[i].key) % |s'|, i, |s'|)
      ensures s'[At(hash(s'[i].key) % |s'|, e, |s'|)] != Free
    {
      assert s'[i] == s[i] && s[At(hash(s[i].key) % |s|, e, |s|)] != Free;
    }
  }

  /** Fewer used slots than slots: one of them is free. */
  lemma SomeFree(s: seq<Slot>) returns (f: nat)
    requires |Used(s)| < |s|
    ensures f < |s| && s[f] == Free
  {
    if forall i :: 0 <= i < |s| ==> s[i] != Free {
      AllUsed(s);
    }
    f :| 0 <= f < |s| && s[f] == Free;
  }

  lemma AllUsed(s: seq<Slot>)
    requires forall i :: 0 <= i < |s| ==> s[i] != Free
    ensures |Used(s)| == |s|
  {
    if s == [] {
      assert Used(s) == {};
    } else {
      var t := s[..|s| - 1];
      AllUsed(t);
      assert Used(s) == Used(t) + {|s| - 1};
    }
  }

  // ---------------------------------------------------------------- growth

  /** What an entry hashes to and is compared by: once its key is gone, nothing is left but a size of zero. */
  function KeyOf(x: Slot): Bytes { if x.Taken? then x.key else [] }

  /** Hashing the entry reads where there is no key: it has been removed, and the key was not empty. */
  predicate Ruined(x: Slot) { x.Vacant? && x.size > 0 }

  /** Rehashing neither reads a key that is gone nor counts one that is not there: every removed entry once held the
      empty key, and that key is in the table by the time it is reached. */
  ghost predicate Growable(s: seq<Slot>) {
    forall i :: 0 <= i < |s| && s[i].Vacant? ==> s[i].size == 0 && [] in KeysOf(s[..i])
  }

  lemma RuinedStops(s: seq<Slot>, i: nat)
    requires i < |s| && Ruined(s[i])
    ensures !Growable(s)
  {
  }

  lemma PristineGrows(s: seq<Slot>)
    requires NoneVacant(s)
    ensures Growable(s) && forall i :: 0 <= i < |s| ==> !Ruined(s[i])
  {
  }

  /** The remains of a removed empty key take a slot and leave all keys where they are. */
  lemma RemainsKeep(s: seq<Slot>, hash: Bytes -> nat, k: nat)
    requires k < |s| && !s[k].Taken? && Distinct(s) && Chained(s, hash)
    ensures var s' := s[k := Vacant(0)]; Distinct(s') && Chained(s', hash) && KeysOf(s') == KeysOf(s)
  {
    var s' := s[k := Vacant(0)];
    forall x | x in KeysOf(s)
      ensures x in KeysOf(s')
    {
      var i :| 0 <= i < |s| && s[i].Taken? && s[i].key == x;
      assert s'[i] == s[i];
    }
    forall i, e | 0 <= i < |s'| && s'[i].Taken? && 0 <= e < |s'| && e < Dist(hash(s'[i].key) % |s'|, i, |s'|)
      ensures s'[At(hash(s'[i].key) % |s'|, e, |s'|)] != Free
    {
      assert s'[i] == s[i] && s[At(hash(s[i].key) % |s|, e, |s|)] != Free;
    }
  }

  /** The table while it is filled again, after `i` slots of the old table `s`. `t` and `size` are the new table and
      the size it counts. */
  ghost predicate Rehashed(s: seq<Slot>, i: nat, t: seq<Slot>, size: nat, hash: Bytes -> nat)
    requires i <= |s|
  {
    && Distinct(t) && Chained(t, hash) && KeysOf(t) == KeysOf(s[..i])
    && |Used(t)| <= |Used(s[..i])| && |KeysOf(t)| <= size <= |Used(s[..i])|
    && (forall j :: 0 <= j < i ==> !Ruined(s[j]))
    && (Growable(s[..i]) <==> size == |KeysOf(t)|) && (Growable(s[..i]) ==> NoneVacant(t))
  }

  lemma RehashStart(s: seq<Slot>, t: seq<Slot>, hash: Bytes -> nat)
    requires forall i :: 0 <= i < |t| ==> t[i] == Free
    ensures Rehashed(s, 0, t, 0, hash)
  {
    AllFree(t, hash);
    assert s[..0] == [];
    assert KeysOf(s[..0]) == {} && Used(s[..0]) == {};
  }

  lemma UsedGrow(s: seq<Slot>, i: nat)
    requires i < |s|
    ensures |Used(s[..i + 1])| == |Used(s[..i])| + if s[i] == Free then 0 else 1
  {
    assert s[..i + 1] == s[..i] + [s[i]];
    UsedSnoc(s[..i], s[i]);
  }

  lemma GrowableNext(s: seq<Slot>, i: nat)
    requires i < |s|
    ensures Growable(s[..i + 1]) <==> Growable(s[..i]) && (s[i].Vacant? ==> s[i].size == 0 && [] in KeysOf(s[..i]))
  {
    var a, b := s[..i], s[..i + 1];
    assert forall j :: 0 <= j < i ==> b[..j] == a[..j] && b[j] == a[j];
    assert b[i] == s[i] && b[..i] == a;
    if Growable(b) {
      forall j | 0 <= j < |a| && a[j].Vacant?
        ensures a[j].size == 0 && [] in KeysOf(a[..j])
      {
        assert b[j].Vacant?;
      }
    }
  }

  lemma RehashFree(s: seq<Slot>, i: nat, t: seq<Slot>, size: nat, hash: Bytes -> nat)
    requires i < |s| && s[i] == Free && Rehashed(s, i, t, size, hash)
    ensures Rehashed(s, i + 1, t, size, hash)
  {
    hide Distinct, Chained, Used, KeysOf, Growable;
    KeysGrow(s, i);
    UsedGrow(s, i);
    GrowableNext(s, i);
  }

  /** One used slot of the old table: a key, or the remains of an empty one. */
  lemma RehashStep(s: seq<Slot>, i: nat, t: seq<Slot>, size: nat, hash: Bytes -> nat, k: nat)
    requires i < |s| && s[i] != Free && !Ruined(s[i]) && Distinct(s) && Rehashed(s, i, t, size, hash)
    requires Probed(t, hash, KeyOf(s[i]), k)
    ensures Rehashed(s, i + 1, Stored(t, k, s[i]), size + if t[k].Taken? then 0 else 1, hash)
    ensures |Used(Stored(t, k, s[i]))| <= |Used(t)| + 1
  {
    hide Distinct, Chained, Used, KeysOf, Growable, Reaches;
    KeysGrow(s, i);
    UsedGrow(s, i);
    GrowableNext(s, i);
    UsedStored(t, k, s[i]);
    var key := KeyOf(s[i]);
    var h := hash(key) % |t|;
    if s[i].Taken? {
      NewKey(s, i);
      NotHere(t, k, key);
      PutKeeps(t, hash, key, Dist(h, k, |t|));
      NoneVacantPut(t, k, s[i]);
      assert |KeysOf(t) + {key}| == |KeysOf(t)| + 1;
    } else {
      assert s[i] == Vacant(0);
      if t[k].Taken? {
        TakenHere(t, k);
      } else {
        RemainsKeep(t, hash, k);
        if Growable(s[..i]) { EmptyFound(t, hash, k); }
      }
    }
  }

  lemma NotHere(t: seq<Slot>, k: nat, key: Bytes)
    requires k < |t| && key !in KeysOf(t)
    ensures t[k] != Taken(key)
  {
  }

  lemma TakenHere(t: seq<Slot>, k: nat)
    requires k < |t| && t[k].Taken?
    ensures t[k].key in KeysOf(t)
  {
  }

  lemma NoneVacantPut(t: seq<Slot>, k: nat, x: Slot)
    requires k < |t| && x.Taken?
    ensures NoneVacant(t) ==> NoneVacant(Stored(t, k, x))
  {
  }

  /** Without vacant slots a probe that stops at a free slot shows that the empty key is absent. */
  lemma EmptyFound(t: seq<Slot>, hash: Bytes -> nat, k: nat)
    requires Probed(t, hash, [], k) && !t[k].Taken? && NoneVacant(t) && Chained(t, hash)
    ensures [] !in KeysOf(t)
  {
    var h := hash([]) % |t|;
    ProbeExact(t, hash, [], Dist(h, k, |t|));
  }

  /** The third way to fail: 15 keys, after which 31 slots must grow, and the remains of one more. If that key was not
      empty, rehashing reads it where it no longer is; if it was, it is counted although it is gone. */
  lemma RemovedThenGrown(hash: Bytes -> nat, keys: seq<Bytes>, size: nat) returns (s: seq<Slot>)
    requires |keys| == 15 && forall i :: 0 <= i < 15 ==> hash(keys[i]) % 31 == i
    ensures |s| == 31 && Distinct(s) && Chained(s, hash) && |Used(s)| < 31 && |KeysOf(s)| == 15
    ensures (exists i :: 0 <= i < |s| && Ruined(s[i])) <==> size > 0
    ensures [] !in keys ==> !Growable(s)
  {
    s := seq(31, i requires 0 <= i < 31 => if i < 15 then Taken(keys[i]) else if i == 15 then Vacant(size) else Free);
    assert s[15] == Vacant(size) && s[16] == Free;
    UsedBelow(s, 16);
    KeysPrefix(s, 15);
    assert KeysOf(s) == KeysOf(s[..15]) by {
      forall x | x in KeysOf(s)
        ensures x in KeysOf(s[..15])
      {
        var i :| 0 <= i < |s| && s[i].Taken? && s[i].key == x;
        assert s[..15][i] == s[i];
      }
      KeysPart(s, 15);
    }
    if [] in KeysOf(s[..15]) {
      var i :| 0 <= i < 15 && s[..15][i].Taken? && s[..15][i].key == [];
      assert keys[i] == [];
    }
  }

  lemma {:induction false} KeysPrefix(s: seq<Slot>, n: nat)
    requires n <= |s| && Distinct(s) && forall i :: 0 <= i < n ==> s[i].Taken?
    ensures |KeysOf(s[..n])| == n
  {
    if n == 0 {
      assert KeysOf(s[..0]) == {};
    } else {
      hide KeysOf, Distinct;
      KeysPrefix(s, n - 1);
      KeysGrow(s, n - 1);
      NewKey(s, n - 1);
    }
  }

  class Table {
    const hash: Bytes -> nat
    var entries: array<Slot>
    var size: nat
    var capacity: nat

    /** Every key can be found, and every probe stops. */
    ghost predicate Sound()
      reads this, entries
    {
      && capacity == entries.Length && capacity >= 31
      && Distinct(entries[..]) && Chained(entries[..], hash) && |Used(entries[..])| < capacity
    }

    /** And the size is that of the key set. */
    ghost predicate Valid()
      reads this, entries
    { Sound() && size == |Keys()| <= capacity / 2 }

    /** Nothing has been removed since the slots were last filled. */
    ghost predicate Pristine()
      reads this, entries
    { NoneVacant(entries[..]) }

    ghost function Keys(): set<Bytes>
      reads this, entries
    { KeysOf(entries[..]) }

    /** cldm_ht_init */
    constructor (hash: Bytes -> nat)
      ensures Valid() && Pristine() && Keys() == {} && capacity == 31 && this.hash == hash && fresh(entries)
    {
      this.hash := hash;
      entries := new Slot[31](_ => Free);
      size := 0;
      capacity := 31;
      new;
      assert Used(entries[..]) == {};
    }

    /** cldm_ht_clear */
    method Clear()
      requires Sound()
      modifies this`size, entries
      ensures Valid() && Pristine() && Keys() == {} && entries == old(entries) && capacity == old(capacity)
    {
      for i := 0 to capacity
        invariant forall j :: 0 <= j < i ==> entries[j] == Free
      {
        entries[i] := Free;
      }
      size := 0;
      AllFree(entries[..], hash);
    }

    /** cldm_ht_should_expand */
    predicate ShouldExpand()
      reads this
    { size + 1 > capacity / 2 }

    /** cldm_ht_probe. It stops because some slot is free. */
    method Probe(key: Bytes, reuse: bool) returns (idx: nat, ghost d: nat)
      requires Sound()
      ensures d < capacity && idx == At(hash(key) % capacity, d, capacity)
      ensures Reaches(entries[..], hash(key) % capacity, key, reuse, d) && Stops(entries[..], idx, key, reuse)
    {
      ghost var s := entries[..];
      ghost var h := hash(key) % capacity;
      ghost var f := SomeFree(s);
      ghost var df := Dist(h, f, capacity);
      idx := hash(key) % capacity;
      d := 0;
      while entries[idx] != Free
        invariant d <= df && idx == At(h, d, capacity) && Reaches(s, h, key, reuse, d)
        decreases df - d
      {
        assert s[idx] == entries[idx];
        if entries[idx].Vacant? {
          if reuse {
            return;
          }
        } else if entries[idx] == Taken(key) {
          return;
        }
        assert d < df;
        NextAt(h, d, capacity);
        idx := (idx + 1) % capacity;
        d := d + 1;
      }
    }

    /** cldm_ht_find */
    method Find(key: Bytes) returns (found: bool)
      requires Sound()
      ensures found <==> key in Keys()
    {
      var idx; ghost var d;
      idx, d := Probe(key, false);
      ProbeExact(entries[..], hash, key, d);
      found := entries[idx].Taken?;
    }

    /** cldm_ht_remove */
    method Remove(key: Bytes) returns (removed: bool)
      requires Sound() && size >= |Keys()|
      modifies this`size, entries
      ensures Sound() && removed == (key in old(Keys())) && Keys() == old(Keys()) - {key}
      ensures size == old(size) - (if removed then 1 else 0) && (old(Valid()) ==> Valid())
      ensures entries == old(entries) && capacity == old(capacity)
    {
      var idx; ghost var d;
      idx, d := Probe(key, false);
      ProbeExact(entries[..], hash, key, d);
      if !entries[idx].Taken? {
        return false;
      }
      ghost var s := entries[..];
      DropKeeps(s, hash, idx, |key|);
      entries[idx] := Vacant(|key|);
      assert entries[..] == s[idx := Vacant(|key|)];
      size := size - 1;
      return true;
    }

    /** cldm_ht_insert, of a key or of what a removed entry has left. `fault`: growing has met a removed entry whose
        key was not empty, and hashes what is no longer there; nothing is claimed from there on. A growth is right
        exactly if the table is growable; without growth the insertion is right exactly if the key does not lie
        behind a vacant slot and the last free slot is not taken. */
    method Insert(x: Slot) returns (inserted: bool, fault: bool, ghost k: nat)
      requires Sound() && x != Free && !Ruined(x) && (ShouldExpand() ==> x.Taken?)
      modifies this, entries
      ensures entries == old(entries) || fresh(entries)
      ensures fault <==> old(ShouldExpand()) && exists i :: 0 <= i < |old(entries[..])| && Ruined(old(entries[..])[i])
      ensures !fault && x.Taken? ==> Keys() == old(Keys()) + {x.key}
      ensures old(ShouldExpand()) ==>
        (!fault && Valid() && inserted == (KeyOf(x) !in old(Keys())) <==> Growable(old(entries[..])))
      ensures old(Valid() && Pristine()) && x.Taken? ==>
        !fault && Valid() && Pristine() && inserted == (x.key !in old(Keys()))
      ensures !old(ShouldExpand()) ==> entries == old(entries) && capacity == old(capacity)
      ensures !old(ShouldExpand()) ==>
        && Probed(old(entries[..]), hash, KeyOf(x), k) && entries[..] == Stored(old(entries[..]), k, x)
        && inserted == !old(entries[..])[k].Taken? && size == old(size) + if inserted then 1 else 0
      ensures !old(ShouldExpand()) && old(Valid()) && x.Taken? ==>
        (Valid() && inserted == (x.key !in old(Keys())) <==> CanEnter(old(entries[..]), hash, k, x.key))
      decreases if ShouldExpand() then 2 else 0
    {
      hide KeysOf, Distinct, Chained, Used, Reaches, Stops, Shadowed, Growable;
      ghost var s := entries[..];
      PristineFirst(s);
      k := 0;
      if ShouldExpand() {
        fault := Expand();
        if fault {
          return false, true, 0;
        }
      } else {
        fault := false;
      }
      ghost var s1, size1 := entries[..], size;
      inserted, k := Put(x);
      CountFits(size1, KeysOf(s1), KeyOf(x));
    }

    lemma PristineFirst(s: seq<Slot>)
      ensures NoneVacant(s) ==> Growable(s) && forall i :: 0 <= i < |s| ==> !Ruined(s[i])
    {
      if NoneVacant(s) { PristineGrows(s); }
    }

    /** The second half of an insertion. */
    method Put(x: Slot) returns (inserted: bool, ghost k: nat)
      requires Sound() && x != Free && !Ruined(x)
      modifies this`size, entries
      ensures Probed(old(entries[..]), hash, KeyOf(x), k) && entries[..] == Stored(old(entries[..]), k, x)
      ensures inserted == !old(entries[..])[k].Taken? && size == old(size) + if inserted then 1 else 0
      ensures x.Taken? ==> Keys() == old(Keys()) + {x.key}
      ensures !old(ShouldExpand()) && old(Valid()) && x.Taken? ==>
        (Valid() && inserted == (x.key !in old(Keys())) <==> CanEnter(old(entries[..]), hash, k, x.key))
      ensures !old(ShouldExpand()) && old(Valid() && Pristine()) && x.Taken? ==>
        Valid() && Pristine() && inserted == (x.key !in old(Keys()))
    {
      hide KeysOf, Distinct, Chained, Used, Reaches, Stops, Shadowed;
      var idx; ghost var d;
      idx, d := Probe(KeyOf(x), true);
      ghost var s := entries[..];
      k := idx;
      assert Probed(s, hash, KeyOf(x), k) by { ProbedAt(s, hash, KeyOf(x), d); }
      if x.Taken? {
        InsertAfterRemoval(s, hash, x.key, d);
        SizeEntered(s, hash, k, x.key);
        if NoneVacant(s) && |KeysOf(s)| + 1 <= |s| / 2 { PristineEnters(s, hash, x.key, d); }
      }
      if entries[idx].Taken? {
        return false, k;
      }
      entries[idx] := x;
      assert entries[..] == Stored(s, k, x);
      size := size + 1;
      return true, k;
    }

    /** cldm_ht_expand: every used entry is entered again into larger storage; none of those insertions expands. */
    method Expand() returns (fault: bool)
      requires Sound() && ShouldExpand()
      modifies this
      ensures fresh(entries)
      ensures fault <==> exists i :: 0 <= i < |old(entries[..])| && Ruined(old(entries[..])[i])
      ensures !fault ==> Sound() && Keys() == old(Keys()) && !ShouldExpand() && capacity >= 2 * old(capacity) + 1
      ensures !fault ==> size >= |Keys()|
      ensures old(capacity) == 31 ==> capacity == 67
      ensures !fault && Valid() <==> Growable(old(entries[..]))
      ensures Growable(old(entries[..])) ==> Pristine()
      decreases 1
    {
      hide KeysOf, Distinct, Chained, Used, Accepted, Growable, Reaches;
      var prev := entries;
      ghost var s := entries[..];
      var newCapacity := SizeUp(capacity);
      var prevCapacity := capacity;
      entries := new Slot[newCapacity](_ => Free);
      capacity := newCapacity;
      size := 0;
      RehashStart(s, entries[..], hash);
      for i := 0 to prevCapacity
        invariant capacity == entries.Length == newCapacity && fresh(entries) && prev[..] == s
        invariant Rehashed(s, i, entries[..], size, hash)
      {
        assert prev[i] == s[i];
        UsedPart(s, i);
        if prev[i] != Free {
          if Ruined(prev[i]) {
            RuinedStops(s, i);
            return true;
          }
          ghost var t, size0 := entries[..], size;
          var inserted, again, k := Insert(prev[i]);
          RehashStep(s, i, t, size0, hash, k);
        } else {
          RehashFree(s, i, entries[..], size, hash);
        }
      }
      assert s[..prevCapacity] == s;
      return false;
    }
  }

  /** A size that counts too much does so after an insertion as well. */
  lemma CountFits(size: nat, keys: set<Bytes>, key: Bytes)
    ensures |keys + {key}| == |keys| + if key in keys then 0 else 1
  {
    if key in keys { assert keys + {key} == keys; }
  }

  lemma UsedPart(s: seq<Slot>, i: nat)
    requires i < |s|
    ensures |Used(s[..i])| <= i && |Used(s[..i])| + (if s[i] == Free then 0 else 1) <= |Used(s)|
  {
    UsedGrow(s, i);
    assert Used(s[..i + 1]) <= Used(s);
    Fewer(Used(s[..i + 1]), Used(s));
    UsedCount(s[..i]);
  }

  lemma UsedCount(s: seq<Slot>)
    ensures |Used(s)| <= |s|
  {
    AllUsed(seq(|s|, _ => Vacant(0)));
    Fewer(Used(s), Used(seq(|s|, _ => Vacant(0))));
  }

  lemma AllFree(s: seq<Slot>, hash: Bytes -> nat)
    requires forall i :: 0 <= i < |s| ==> s[i] == Free
    ensures Distinct(s) && Chained(s, hash) && KeysOf(s) == {} && Used(s) == {} && NoneVacant(s)
  {
  }

  lemma KeysGrow(s: seq<Slot>, i: nat)
    requires i < |s|
    ensures KeysOf(s[..i + 1]) == KeysOf(s[..i]) + (if s[i].Taken? then {s[i].key} else {})
  {
    var a, b := s[..i], s[..i + 1];
    forall x | x in KeysOf(a) ensures x in KeysOf(b) {
      var j :| 0 <= j < |a| && a[j].Taken? && a[j].key == x;
      assert b[j] == a[j];
    }
    if s[i].Taken? { assert b[i] == s[i]; }
    forall x | x in KeysOf(b) ensures x in KeysOf(a) || (s[i].Taken? && x == s[i].key) {
      var j :| 0 <= j < |b| && b[j].Taken? && b[j].key == x;
      if j < i { assert a[j] == b[j]; }
    }
  }

  lemma KeysPart(s: seq<Slot>, i: nat)
    requires i <= |s|
    ensures KeysOf(s[..i]) <= KeysOf(s) && |KeysOf(s[..i])| <= |KeysOf(s)|
  {
    forall x | x in KeysOf(s[..i]) ensures x in KeysOf(s) {
      var j :| 0 <= j < i && s[..i][j].Taken? && s[..i][j].key == x;
      assert s[j].Taken? && s[j].key == x;
    }
    Fewer(KeysOf(s[..i]), KeysOf(s));
  }
}
