/** The lexicographic order of byte strings (`Ord` on `Vec<u8>`), and the one
    sorted, duplicate-free listing of a set of them. */
module ByteOrder {
  import opened Bytes

  predicate Below(a: Blob, b: Blob) {
    if b == [] then false
    else if a == [] then true
    else a[0] < b[0] || (a[0] == b[0] && Below(a[1..], b[1..]))
  }

  lemma {:induction false} BelowTotal(a: Blob, b: Blob)
    ensures Below(a, b) || a == b || Below(b, a)
    ensures !(Below(a, b) && (a == b || Below(b, a)))
  {
    if a == [] || b == [] {
    } else {
      BelowTotal(a[1..], b[1..]);
      if a[0] == b[0] { assert a == [a[0]] + a[1..] && b == [b[0]] + b[1..]; }
    }
  }

  lemma {:induction false} BelowTransitive(a: Blob, b: Blob, c: Blob)
    requires Below(a, b) && Below(b, c)
    ensures Below(a, c)
  {
    if a == [] || a[0] < c[0] {
    } else {
      BelowTransitive(a[1..], b[1..], c[1..]);
    }
  }

  /** They part after a common beginning: there the first ends, or has the lesser byte. */
  predicate PartsBelow(a: Blob, b: Blob, k: nat) {
    && k <= |a| && k < |b| && a[..k] == b[..k]
    && (k == |a| || a[k] < b[k])
  }

  lemma {:induction false} BelowSpelled(a: Blob, b: Blob)
    ensures Below(a, b) <==> exists k: nat :: PartsBelow(a, b, k)
  {
    if a == [] || b == [] {
      assert b != [] && a == [] ==> PartsBelow(a, b, 0);
    } else {
      BelowSpelled(a[1..], b[1..]);
      if a[0] < b[0] {
        assert PartsBelow(a, b, 0);
      } else if Below(a, b) {
        var k: nat :| PartsBelow(a[1..], b[1..], k);
        assert a[..k + 1] == [a[0]] + a[1..][..k] && b[..k + 1] == [b[0]] + b[1..][..k];
        assert PartsBelow(a, b, k + 1);
      }
      if k: nat :| PartsBelow(a, b, k) {
        if k > 0 {
          assert a[0] == a[..k][0] == b[..k][0] == b[0];
          assert a[1..][..k - 1] == a[..k][1..] && b[1..][..k - 1] == b[..k][1..];
          assert PartsBelow(a[1..], b[1..], k - 1);
        }
      }
    }
  }

  ghost predicate Ascending(s: seq<Blob>) {
    forall i, j :: 0 <= i < j < |s| ==> Below(s[i], s[j])
  }

  ghost function Elements(s: seq<Blob>): set<Blob> {
    set x | x in s
  }

  function Insert(x: Blob, s: seq<Blob>): seq<Blob> {
    if s == [] then [x]
    else if Below(x, s[0]) then [x] + s
    else if x == s[0] then s
    else [s[0]] + Insert(x, s[1..])
  }

  lemma Prepended(x: Blob, s: seq<Blob>)
    requires Ascending(s) && forall i :: 0 <= i < |s| ==> Below(x, s[i])
    ensures Ascending([x] + s) && Elements([x] + s) == Elements(s) + {x}
  {
    hide Below;
  }

  lemma {:induction false} InsertKeeps(x: Blob, s: seq<Blob>)
    requires Ascending(s)
    ensures Ascending(Insert(x, s)) && Elements(Insert(x, s)) == Elements(s) + {x}
  {
    hide Below;
    if s == [] {
      Prepended(x, s);
      assert [x] + s == [x];
    } else if Below(x, s[0]) {
      forall i | 0 < i < |s| ensures Below(x, s[i]) { BelowTransitive(x, s[0], s[i]); }
      Prepended(x, s);
    } else if x != s[0] {
      BelowTotal(x, s[0]);
      InsertKeeps(x, s[1..]);
      var rest := Insert(x, s[1..]);
      forall i | 0 <= i < |rest| ensures Below(s[0], rest[i]) {
        assert rest[i] in Elements(rest);
        if rest[i] != x { assert rest[i] in s[1..]; }
      }
      Prepended(s[0], rest);
      assert s == [s[0]] + s[1..];
      assert Elements(s) == Elements(s[1..]) + {s[0]};
    }
  }

  /** `sort` then `dedup`. */
  function Canonical(s: seq<Blob>): seq<Blob> {
    if s == [] then [] else Insert(s[0], Canonical(s[1..]))
  }

  lemma {:induction false} CanonicalLists(s: seq<Blob>)
    ensures Ascending(Canonical(s)) && Elements(Canonical(s)) == Elements(s)
  {
    if s == [] {
    } else {
      CanonicalLists(s[1..]);
      InsertKeeps(s[0], Canonical(s[1..]));
      assert s == [s[0]] + s[1..];
    }
  }

  /** A set has one ascending listing. */
  lemma {:induction false} AscendingUnique(s: seq<Blob>, t: seq<Blob>)
    requires Ascending(s) && Ascending(t) && Elements(s) == Elements(t)
    ensures s == t
  {
    assert t != [] ==> t[0] in Elements(t);
    if s == [] {
    } else {
      assert s[0] in Elements(t);
      var i :| 0 <= i < |t| && t[i] == s[0];
      assert t[0] in Elements(s);
      var j :| 0 <= j < |s| && s[j] == t[0];
      BelowTotal(s[0], t[0]);
      assert s[0] == t[0];
      TailElements(s);
      TailElements(t);
      AscendingUnique(s[1..], t[1..]);
      assert s == [s[0]] + s[1..] && t == [t[0]] + t[1..];
    }
  }

  lemma TailElements(s: seq<Blob>)
    requires Ascending(s) && s != []
    ensures Ascending(s[1..]) && Elements(s[1..]) == Elements(s) - {s[0]}
  {
    assert s == [s[0]] + s[1..];
    forall i | 0 < i < |s| ensures s[i] != s[0] { BelowTotal(s[0], s[i]); }
  }

  /** An ascending listing is as long as its set is large. */
  lemma {:induction false} AscendingSize(s: seq<Blob>)
    requires Ascending(s)
    ensures |s| == |Elements(s)|
  {
    if s == [] {
    } else {
      TailElements(s);
      AscendingSize(s[1..]);
      assert s[0] in Elements(s);
    }
  }
}
