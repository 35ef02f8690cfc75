/**
 * The two array idioms every recipe handler is built from: removing one position with
 * `list.filter((_, i) => i !== index)`, and replacing one position by copying the array
 * with a spread and assigning `copy[index] = value`.
 */
module JsArray {

  /** `s.filter((_, j) => j !== i)`: every element whose position differs from `i`,
      visited left to right. */
  function Without<T>(s: seq<T>, i: int): (r: seq<T>)
    ensures |r| == if 0 <= i < |s| then |s| - 1 else |s|
    ensures forall x :: x in r ==> x in s
    decreases |s|
  {
    if s == [] then []
    else (if i == 0 then [] else [s[0]]) + Without(s[1..], i - 1)
  }

  /** Filtering out a position is cutting it out of the sequence: the elements
      before it and after it keep their order, and an index outside the sequence
      removes nothing. */
  lemma {:induction false} WithoutIsSplice<T>(s: seq<T>, i: int)
    ensures Without(s, i) == if 0 <= i < |s| then s[..i] + s[i + 1..] else s
    decreases |s|
  {
    if s != [] {
      WithoutIsSplice(s[1..], i - 1);
      if 0 < i < |s| {
        assert s[1..][..i - 1] == s[1..i];
        assert [s[0]] + s[1..i] == s[..i];
        assert s[1..][i..] == s[i + 1..];
      } else if i == 0 {
        assert s[1..] == s[..0] + s[1..];
      } else {
        assert [s[0]] + s[1..] == s;
      }
    }
  }

  /** Appending an element and then filtering out its position gives back the
      original sequence. */
  lemma WithoutLast<T>(s: seq<T>, x: T)
    ensures Without(s + [x], |s|) == s
  {
    WithoutIsSplice(s + [x], |s|);
    assert (s + [x])[..|s|] == s;
  }

  function Repeat<T>(x: T, n: nat): (r: seq<T>)
    ensures |r| == n && forall k :: 0 <= k < n ==> r[k] == x
  {
    seq(n, _ => x)
  }

  /** `const c = [...s]; c[i] = v;`. Inside the array one element is replaced. Past
      the end JavaScript grows the array to `i + 1` elements and leaves holes
      between; the model fills them with `hole`, the value the forms display for a
      missing entry. */
  function Assigned<T>(s: seq<T>, i: nat, v: T, hole: T): (r: seq<T>)
    ensures |r| == if i < |s| then |s| else i + 1
    ensures r[i] == v
    ensures forall j :: 0 <= j < |s| && j != i ==> r[j] == s[j]
    ensures forall j :: |s| <= j < i ==> r[j] == hole
  {
    if i < |s| then s[i := v] else s + Repeat(hole, i - |s|) + [v]
  }

  /** Assigning back the value that was there undoes an in-range assignment. */
  lemma AssignedUndo<T>(s: seq<T>, i: nat, v: T, hole: T)
    requires i < |s|
    ensures Assigned(Assigned(s, i, v, hole), i, s[i], hole) == s
  {
  }
}
