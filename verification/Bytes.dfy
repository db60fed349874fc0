/** Bytes, and the small containers every module uses. */
module Bytes {
  type byte = bv8

  datatype Option<+T> = None | Some(value: T)

  function Concat<T>(parts: seq<seq<T>>): (all: seq<T>)
  {
    if parts == [] then [] else parts[0] + Concat(parts[1..])
  }

  lemma {:induction false} ConcatSnoc<T>(parts: seq<seq<T>>, last: seq<T>)
    ensures Concat(parts + [last]) == Concat(parts) + last
    decreases |parts|
  {
    if parts == [] {
      assert parts + [last] == [last];
      assert Concat([last]) == last + Concat<T>([]);
    } else {
      assert (parts + [last])[1..] == parts[1..] + [last];
      ConcatSnoc(parts[1..], last);
    }
  }

  lemma SuffixSnoc<T>(s: seq<T>, t: seq<T>, k: nat)
    requires k <= |s| && |t| == |s| + 1 && t[..|s|] == s
    ensures t[k..] == s[k..] + [t[|s|]]
    ensures t[..k] == s[..k]
  {
    assert t == s + [t[|s|]];
  }
}
