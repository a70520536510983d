/** String helpers standing for Python's `"".join`, `" ".join` and `str.split(" ")`. */
module Text {

  /** `"".join(parts)`: the parts one after another, with no separator. */
  function Concat(parts: seq<string>): string
  {
    if parts == [] then "" else Concat(parts[..|parts| - 1]) + parts[|parts| - 1]
  }

  /** Joining two lists of parts is joining each and concatenating the results. */
  lemma {:induction false} ConcatAppend(a: seq<string>, b: seq<string>)
    ensures Concat(a + b) == Concat(a) + Concat(b)
    decreases |b|
  {
    if b == [] {
      assert a + b == a;
    } else {
      var init := b[..|b| - 1];
      assert (a + b)[..|a + b| - 1] == a + init;
      ConcatAppend(a, init);
    }
  }

  /** `" ".join(parts)`: the parts separated by exactly one space. */
  function JoinSpace(parts: seq<string>): string
  {
    if |parts| == 0 then ""
    else if |parts| == 1 then parts[0]
    else JoinSpace(parts[..|parts| - 1]) + " " + parts[|parts| - 1]
  }

  predicate NoSpace(w: string)
  {
    ' ' !in w
  }

  /** Index of the last space in `s`, or -1 when there is none. */
  function LastSpace(s: string): (k: int)
    ensures -1 <= k < |s|
    ensures k >= 0 ==> s[k] == ' '
    ensures forall j | k < j < |s| :: s[j] != ' '
  {
    if |s| == 0 then -1
    else if s[|s| - 1] == ' ' then |s| - 1
    else LastSpace(s[..|s| - 1])
  }

  /** `s.split(" ")`: the maximal space-free pieces between single spaces. */
  function SplitSpace(s: string): (r: seq<string>)
    ensures |r| >= 1
    decreases |s|
  {
    var k := LastSpace(s);
    if k < 0 then [s] else SplitSpace(s[..k]) + [s[k + 1..]]
  }

  /** Splitting a space-joined line gives back its parts when no part holds a space. */
  lemma {:induction false} SplitJoin(parts: seq<string>)
    requires |parts| >= 1
    requires forall i | 0 <= i < |parts| :: NoSpace(parts[i])
    ensures SplitSpace(JoinSpace(parts)) == parts
  {
    if |parts| > 1 {
      var init := parts[..|parts| - 1];
      var w := parts[|parts| - 1];
      var head := JoinSpace(init);
      var s := head + " " + w;
      assert JoinSpace(parts) == s;
      var k := LastSpace(s);
      assert s[|head|] == ' ';
      assert k == |head|;
      assert s[..k] == head;
      assert s[k + 1..] == w;
      SplitJoin(init);
    }
  }
}
