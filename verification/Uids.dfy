/**
 Ascending lists and finite sets of message UIDs, the two shapes in which the mail store and
 the IMAP sessions keep the contents of a mailbox.
 */
module Uids {

  datatype Option<+T> = None | Some(value: T)

  /** Go's `uint32`, the width of every UID and sequence number. */
  const MAX_UINT32 := 0xFFFF_FFFF
  type Uint32 = n: nat | n <= MAX_UINT32

  /**
   Always true. A definition that stands under it is used by the solver only where a proof mentions `Unfold`; this
   limits where such definitions are unfolded and says nothing itself.
   */
  predicate Unfold(n: nat) {
    true
  }

  predicate Ascending(s: seq<nat>) {
    forall i, j :: 0 <= i < j < |s| ==> s[i] < s[j]
  }

  function Elements(s: seq<nat>): set<nat> {
    set x | x in s
  }

  lemma {:induction false} MinimumBelow(s: set<nat>, x: nat)
    requires x in s
    ensures exists m :: m in s && forall y :: y in s ==> m <= y
    decreases x
  {
    if y :| y in s && y < x {
      MinimumBelow(s, y);
    }
  }

  function Minimum(s: set<nat>): (x: nat)
    requires s != {}
    ensures x in s && forall y :: y in s ==> x <= y
  {
    assert exists m :: m in s && forall y :: y in s ==> m <= y by {
      var x :| x in s;
      MinimumBelow(s, x);
    }
    var x :| x in s && forall y :: y in s ==> x <= y;
    x
  }

  lemma {:induction false} ListingExists(s: set<nat>)
    ensures exists r: seq<nat> :: Ascending(r) && Elements(r) == s && |r| == |s|
    decreases |s|
  {
    if s == {} {
      EmptyElements([]);
    } else {
      var x := Minimum(s);
      ListingExists(s - {x});
      var rest: seq<nat> :| Ascending(rest) && Elements(rest) == s - {x} && |rest| == |s - {x}|;
      PrependMinimum(x, rest, s);
    }
  }

  /** A set listed in ascending order, as `imap.SeqSet` and `ORDER BY msgId` list it. */
  ghost function Listed(s: set<nat>): (r: seq<nat>)
    ensures Ascending(r) && Elements(r) == s && |r| == |s|
  {
    ListingExists(s);
    var r: seq<nat> :| Ascending(r) && Elements(r) == s && |r| == |s|;
    r
  }

  /** Going through a set from below. */
  method ListAscending(s: set<nat>) returns (r: seq<nat>)
    ensures r == Listed(s)
  {
    r := [];
    var todo := s;
    while todo != {}
      invariant todo <= s && Ascending(r) && Elements(r) == s - todo
      invariant forall x, y :: x in Elements(r) && y in todo ==> x < y
      decreases |todo|
    {
      var x := Minimum(todo);
      assert Elements([x]) == {x};
      AscendingConcat(r, [x]);
      ElementsConcat(r, [x]);
      r := r + [x];
      todo := todo - {x};
    }
    AscendingUnique(r, Listed(s));
  }

  lemma PrependMinimum(x: nat, rest: seq<nat>, s: set<nat>)
    requires x in s && forall y :: y in s ==> x <= y
    requires Ascending(rest) && Elements(rest) == s - {x}
    ensures Ascending([x] + rest) && Elements([x] + rest) == s
  {
    assert Elements([x]) == {x};
    ElementsConcat([x], rest);
    AscendingConcat([x], rest);
  }

  lemma EmptyElements(s: seq<nat>)
    ensures Elements(s) == {} <==> s == []
  {
    if s != [] { assert s[0] in Elements(s); }
  }

  /** An ascending list is determined by its elements. */
  lemma {:induction false} AscendingUnique(a: seq<nat>, b: seq<nat>)
    requires Ascending(a) && Ascending(b) && Elements(a) == Elements(b)
    ensures a == b
    decreases |a|
  {
    EmptyElements(a);
    EmptyElements(b);
    if a == [] {
    } else {
      assert a[0] in Elements(b);
      assert b[0] in Elements(a);
      assert a[0] == b[0];
      TailElements(a);
      TailElements(b);
      AscendingUnique(a[1..], b[1..]);
      assert a == [a[0]] + a[1..] && b == [b[0]] + b[1..];
    }
  }

  lemma TailElements(a: seq<nat>)
    requires Ascending(a) && a != []
    ensures Elements(a[1..]) == Elements(a) - {a[0]}
  {
    forall x | x in Elements(a) - {a[0]} ensures x in Elements(a[1..]) {
      var i :| 0 <= i < |a| && a[i] == x;
      assert a[1..][i - 1] == x;
    }
  }

  lemma ElementsConcat(a: seq<nat>, b: seq<nat>)
    ensures Elements(a + b) == Elements(a) + Elements(b)
  {
    forall x | x in Elements(a) + Elements(b) ensures x in Elements(a + b) {
      if x in Elements(a) {
        var i :| 0 <= i < |a| && a[i] == x;
        assert (a + b)[i] == x;
      } else {
        var i :| 0 <= i < |b| && b[i] == x;
        assert (a + b)[|a| + i] == x;
      }
    }
  }

  /** An ascending list followed by one that starts above it is ascending. */
  lemma AscendingConcat(a: seq<nat>, b: seq<nat>)
    requires Ascending(a) && Ascending(b)
    requires forall x, y :: x in Elements(a) && y in Elements(b) ==> x < y
    ensures Ascending(a + b)
  {
    var c := a + b;
    forall i, j | 0 <= i < j < |c| ensures c[i] < c[j] {
      if i < |a| <= j {
        assert c[i] == a[i] && a[i] in Elements(a);
        assert c[j] == b[j - |a|] && b[j - |a|] in Elements(b);
      }
    }
  }

  /** Listing a union whose first part lies below its second is listing the parts in turn. */
  lemma ListedUnion(a: set<nat>, b: set<nat>)
    requires forall x, y :: x in a && y in b ==> x < y
    ensures Listed(a + b) == Listed(a) + Listed(b)
  {
    AscendingConcat(Listed(a), Listed(b));
    ElementsConcat(Listed(a), Listed(b));
    AscendingUnique(Listed(a + b), Listed(a) + Listed(b));
  }
}
