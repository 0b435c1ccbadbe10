/** The list surgery the rule store performs on either rule list, stated once
    for any element type: removal by position (`append(s[:i], s[i+1:]...)`),
    insertion by position, and the move that the interactive reordering uses. */
module Lists {

  /** The list without position `i`; later elements shift down by one. */
  function RemoveAt<T>(s: seq<T>, i: nat): (r: seq<T>)
    requires i < |s|
    ensures |r| == |s| - 1
    ensures forall k :: 0 <= k < i ==> r[k] == s[k]
    ensures forall k :: i <= k < |r| ==> r[k] == s[k + 1]
  {
    s[..i] + s[i + 1..]
  }

  /** The list with `x` placed at position `i`; later elements shift up by one. */
  function InsertAt<T>(s: seq<T>, i: nat, x: T): (r: seq<T>)
    requires i <= |s|
    ensures |r| == |s| + 1 && r[i] == x
    ensures forall k :: 0 <= k < i ==> r[k] == s[k]
    ensures forall k :: i < k < |r| ==> r[k] == s[k - 1]
  {
    s[..i] + [x] + s[i..]
  }

  /** Both positions lie in a list of length `n` and differ: the only case in
      which a move changes anything. */
  predicate IsRealMove(n: int, from: int, to: int) {
    0 <= from < n && 0 <= to < n && from != to
  }

  /** The list after moving the element at `from` to position `to`: unchanged
      when either position is out of range or they are equal; otherwise the
      moved element lands at `to`, and taking it out again leaves the list with
      `from` taken out. A move never adds, drops or duplicates an element. */
  function Moved<T>(s: seq<T>, from: int, to: int): (r: seq<T>)
    ensures !IsRealMove(|s|, from, to) ==> r == s
    ensures IsRealMove(|s|, from, to) ==>
      |r| == |s| && r[to] == s[from] && RemoveAt(r, to) == RemoveAt(s, from)
    ensures multiset(r) == multiset(s)
  {
    if !IsRealMove(|s|, from, to) then s
    else
      var rest := RemoveAt(s, from);
      RemoveInserted(rest, to, s[from]);
      SameElements(s, from, to);
      InsertAt(rest, to, s[from])
  }

  /** Taking out an element just inserted gives back the list it went into. */
  lemma RemoveInserted<T>(s: seq<T>, i: nat, x: T)
    requires i <= |s|
    ensures RemoveAt(InsertAt(s, i, x), i) == s
  {
    var r := RemoveAt(InsertAt(s, i, x), i);
    assert forall k :: 0 <= k < |s| ==> r[k] == s[k];
  }

  /** Taking an element out and inserting it elsewhere keeps the multiset. */
  lemma SameElements<T>(s: seq<T>, from: nat, to: nat)
    requires from < |s| && to < |s|
    ensures multiset(InsertAt(RemoveAt(s, from), to, s[from])) == multiset(s)
  {
    var rest := RemoveAt(s, from);
    var x := s[from];
    calc {
      multiset(s);
      { assert s == s[..from] + [x] + s[from + 1..]; }
      multiset(s[..from]) + multiset([x]) + multiset(s[from + 1..]);
      { assert rest == s[..from] + s[from + 1..]; }
      multiset(rest) + multiset([x]);
      { assert rest == rest[..to] + rest[to..]; }
      multiset(rest[..to]) + multiset([x]) + multiset(rest[to..]);
      { assert InsertAt(rest, to, x) == rest[..to] + [x] + rest[to..]; }
      multiset(InsertAt(rest, to, x));
    }
  }

  /** Putting back an element where it was taken out restores the list. */
  lemma {:induction false} InsertRemoved<T>(s: seq<T>, i: nat)
    requires i < |s|
    ensures InsertAt(RemoveAt(s, i), i, s[i]) == s
  {
    var r := InsertAt(RemoveAt(s, i), i, s[i]);
    assert forall k :: 0 <= k < |s| ==> r[k] == s[k];
  }

  /** Where every element ends up after a real move: positions outside the
      range between `from` and `to` keep their element, and the elements in
      between shift by one towards `from`. */
  lemma MovedShifts<T>(s: seq<T>, from: int, to: int)
    requires IsRealMove(|s|, from, to)
    ensures var r := Moved(s, from, to);
      (forall k :: 0 <= k < |s| && ((k < from && k < to) || (k > from && k > to)) ==> r[k] == s[k])
      && (from < to ==> forall k :: from <= k < to ==> r[k] == s[k + 1])
      && (to < from ==> forall k :: to < k <= from ==> r[k] == s[k - 1])
  {
  }

  /** Moving an element back to where it came from undoes the move. */
  lemma {:induction false} MoveBack<T>(s: seq<T>, from: int, to: int)
    ensures Moved(Moved(s, from, to), to, from) == s
  {
    if IsRealMove(|s|, from, to) {
      var r := Moved(s, from, to);
      assert IsRealMove(|r|, to, from);
      InsertRemoved(s, from);
    }
  }
}
