/** Sequences: repeats, what is picked from one, and regrouping. */
module Sequences {
  ghost predicate NoRepeats<T>(s: seq<T>) { forall i, j :: 0 <= i < j < |s| ==> s[i] != s[j] }

  lemma Regroup<T>(a: seq<T>, b: seq<T>, c: seq<T>)
    ensures (a + b) + c == a + (b + c)
  {}

  /** The elements at the picked places, in order. */
  function Picked<T>(s: seq<T>, pick: seq<bool>): seq<T>
    requires |pick| == |s|
  {
    if s == [] then [] else (if pick[0] then [s[0]] else []) + Picked(s[1..], pick[1..])
  }

  lemma {:induction false} PickedLast<T>(s: seq<T>, pick: seq<bool>)
    requires |pick| == |s| > 0
    ensures var n := |s| - 1; Picked(s, pick) == Picked(s[..n], pick[..n]) + if pick[n] then [s[n]] else []
  {
    var n := |s| - 1;
    if n > 0 {
      PickedLast(s[1..], pick[1..]);
      assert s[..n][1..] == s[1..][..n-1] && pick[..n][1..] == pick[1..][..n-1];
    }
  }

  lemma {:induction false} PickedIn<T>(s: seq<T>, pick: seq<bool>)
    requires |pick| == |s|
    ensures forall x :: x in Picked(s, pick) ==> exists i :: 0 <= i < |s| && s[i] == x && pick[i]
    ensures NoRepeats(s) ==> NoRepeats(Picked(s, pick))
  {
    if s != [] {
      PickedIn(s[1..], pick[1..]);
      forall x | x in Picked(s, pick) ensures exists i :: 0 <= i < |s| && s[i] == x && pick[i] {
        if x in Picked(s[1..], pick[1..]) {
          var i :| 0 <= i < |s[1..]| && s[1..][i] == x && pick[1..][i];
          assert s[i + 1] == x && pick[i + 1];
        } else {
          assert s[0] == x && pick[0];
        }
      }
      if NoRepeats(s) {
        assert NoRepeats(s[1..]);
        assert s[0] !in Picked(s[1..], pick[1..]);
      }
    }
  }
}
