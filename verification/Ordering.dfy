/** Numbers in order: the greater of two, strictly increasing sequences, and sorting. */
module Ordering {

  function Max(a: int, b: int): int {
    if a < b then b else a
  }

  ghost predicate StrictlyIncreasing(s: seq<int>) {
    forall i, j :: 0 <= i < j < |s| ==> s[i] < s[j]
  }

  function Insert(x: int, s: seq<int>): seq<int> {
    if s == [] || x <= s[0] then [x] + s else [s[0]] + Insert(x, s[1..])
  }

  function InOrder(s: seq<int>): seq<int> {
    if s == [] then [] else Insert(s[0], InOrder(s[1..]))
  }

  lemma {:induction false} InsertKeepsElements(x: int, s: seq<int>)
    ensures |Insert(x, s)| == |s| + 1
    ensures forall y :: y in Insert(x, s) <==> y == x || y in s
  {
    if s != [] && x > s[0] {
      InsertKeepsElements(x, s[1..]);
      assert s == [s[0]] + s[1..];
    }
  }

  lemma {:induction false} InOrderKeepsElements(s: seq<int>)
    ensures |InOrder(s)| == |s|
    ensures forall x :: x in InOrder(s) <==> x in s
  {
    if s != [] {
      InOrderKeepsElements(s[1..]);
      InsertKeepsElements(s[0], InOrder(s[1..]));
      assert s == [s[0]] + s[1..];
    }
  }

  lemma PrependKeepsIncreasing(x: int, s: seq<int>)
    requires StrictlyIncreasing(s) && forall y :: y in s ==> x < y
    ensures StrictlyIncreasing([x] + s)
  {
    var t := [x] + s;
    forall i, j | 0 <= i < j < |t| ensures t[i] < t[j] {
      assert t[j] in s;
    }
  }

  lemma {:induction false} InsertKeepsIncreasing(x: int, s: seq<int>)
    requires StrictlyIncreasing(s) && x !in s
    ensures StrictlyIncreasing(Insert(x, s))
  {
    if s != [] && x > s[0] {
      InsertKeepsIncreasing(x, s[1..]);
      InsertKeepsElements(x, s[1..]);
      PrependKeepsIncreasing(s[0], Insert(x, s[1..]));
    } else {
      PrependKeepsIncreasing(x, s);
    }
  }

  /** Sorting numbers without duplicates keeps them and orders them. */
  lemma {:induction false} InOrderIsIncreasing(s: seq<int>)
    requires forall i, j :: 0 <= i < j < |s| ==> s[i] != s[j]
    ensures StrictlyIncreasing(InOrder(s))
  {
    if s != [] {
      assert forall i, j :: 0 <= i < j < |s[1..]| ==> s[1..][i] == s[i + 1] && s[1..][j] == s[j + 1];
      InOrderIsIncreasing(s[1..]);
      InOrderKeepsElements(s[1..]);
      assert s[0] !in s[1..];
      InsertKeepsIncreasing(s[0], InOrder(s[1..]));
    }
  }

  /** Numbers already in order stay as they are. */
  lemma {:induction false} IncreasingIsInOrder(s: seq<int>)
    requires StrictlyIncreasing(s)
    ensures InOrder(s) == s
  {
    if s != [] {
      assert forall i, j :: 0 <= i < j < |s[1..]| ==> s[1..][i] == s[i + 1] && s[1..][j] == s[j + 1];
      IncreasingIsInOrder(s[1..]);
      assert |s| > 1 ==> s[1..][0] == s[1];
    }
  }

  /** A concatenation is increasing exactly when its parts are, and follow each other. */
  lemma AscendingSplit(a: seq<int>, b: seq<int>)
    ensures StrictlyIncreasing(a + b) <==>
              StrictlyIncreasing(a) && StrictlyIncreasing(b) && forall x, y :: x in a && y in b ==> x < y
  {
    var s := a + b;
    if StrictlyIncreasing(s) {
      forall i, j | 0 <= i < j < |a| ensures a[i] < a[j] {
        assert s[i] < s[j];
      }
      forall i, j | 0 <= i < j < |b| ensures b[i] < b[j] {
        assert s[|a| + i] < s[|a| + j];
      }
      forall x, y | x in a && y in b ensures x < y {
        var i :| 0 <= i < |a| && a[i] == x;
        var j :| 0 <= j < |b| && b[j] == y;
        assert s[i] < s[|a| + j];
      }
    }
    if StrictlyIncreasing(a) && StrictlyIncreasing(b) && forall x, y :: x in a && y in b ==> x < y {
      forall i, j | 0 <= i < j < |s| ensures s[i] < s[j] {
        if i < |a| <= j {
          assert a[i] in a && b[j - |a|] in b;
        }
      }
    }
  }
}
