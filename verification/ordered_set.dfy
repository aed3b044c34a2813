/** A JavaScript `Set` as the core uses it: a duplicate-free sequence in
    insertion order. Iterating the set (`Array.from(set)`) reads the sequence. */
module OrderedSet {

  predicate NoDuplicates(s: seq<string>) {
    forall i, j | 0 <= i < j < |s| :: s[i] != s[j]
  }

  /** `set.add(x)`: a new element goes last; an element already present keeps
      its place. */
  function Add(s: seq<string>, x: string): (r: seq<string>)
    ensures forall y :: y in r <==> y in s || y == x
    ensures |s| <= |r| && r[..|s|] == s
    ensures x in s ==> r == s
    ensures NoDuplicates(s) ==> NoDuplicates(r)
  {
    if x in s then s else s + [x]
  }

  /** `set.delete(x)`: the other elements keep their relative order. */
  function Delete(s: seq<string>, x: string): (r: seq<string>)
    ensures forall y :: y in r <==> y in s && y != x
    ensures x !in s ==> r == s
    ensures |r| <= |s|
    ensures NoDuplicates(s) ==> NoDuplicates(r)
  {
    if |s| == 0 then []
    else if s[0] == x then Delete(s[1..], x)
    else
      var rest := Delete(s[1..], x);
      assert NoDuplicates(s) ==> s[0] !in rest && NoDuplicates(s[1..]) by {
        if NoDuplicates(s) {
          forall k | 0 <= k < |s| - 1 ensures s[1..][k] != s[0] {
            assert s[k + 1] != s[0];
          }
        }
      }
      [s[0]] + rest
  }

  /** In a duplicate-free sequence, deleting a present element shortens it by one. */
  lemma {:induction false} DeleteSize(s: seq<string>, x: string)
    requires NoDuplicates(s) && x in s
    ensures |Delete(s, x)| == |s| - 1
  {
    if s[0] == x {
      assert x !in s[1..];
    } else {
      assert NoDuplicates(s[1..]);
      DeleteSize(s[1..], x);
    }
  }
}
