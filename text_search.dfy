/** Searching in strings the way the C++ standard library does it:
    `std::string::find` (returning `npos` when there is no match), `std::strlen`
    style scans for one character, and subtraction on the unsigned `size_t`. */
module TextSearch {

  /** `size_t` is 64 bits wide: arithmetic on it wraps modulo this. */
  const SIZE_T_MODULUS: nat := 0x1_0000_0000_0000_0000

  /** `std::string::npos`, the largest `size_t`; `find` returns it when nothing matches. */
  const NPOS: nat := SIZE_T_MODULUS - 1

  /** `a - b` evaluated on `size_t` operands: below zero it wraps around to the top of the range. */
  function SizeSub(a: nat, b: nat): (r: nat)
    ensures r < SIZE_T_MODULUS
    ensures b <= a < SIZE_T_MODULUS ==> r == a - b
    ensures a < b <= SIZE_T_MODULUS ==> r == SIZE_T_MODULUS - (b - a)
  {
    (a - b) % SIZE_T_MODULUS
  }

  /** Index of the first `c` in `s`, or `|s|` when `s` holds no `c`. */
  function IndexOf(s: string, c: char): (r: nat)
    ensures r <= |s|
    ensures r < |s| ==> s[r] == c
    ensures forall j :: 0 <= j < r ==> s[j] != c
    ensures r == |s| <==> c !in s
  {
    if s == [] then 0
    else if s[0] == c then 0
    else 1 + IndexOf(s[1..], c)
  }

  /** `p` occurs in `s` starting at index `i`. */
  predicate OccursAt(s: string, p: string, i: nat)
  {
    i + |p| <= |s| && s[i..i + |p|] == p
  }

  /** `p` occurs in `s` at `i` and nowhere before `i`. */
  predicate FirstOccursAt(s: string, p: string, i: nat)
  {
    OccursAt(s, p, i) && forall j :: 0 <= j < i ==> !OccursAt(s, p, j)
  }

  /** `s.find(p, i)`: the first index at or after `i` where `p` occurs, or `NPOS`. */
  function FindFrom(s: string, p: string, i: nat): (r: nat)
    requires i <= |s|
    ensures r == NPOS || (i <= r && OccursAt(s, p, r))
    ensures forall j :: i <= j < r && j < |s| ==> !OccursAt(s, p, j)
    decreases |s| - i
  {
    if i + |p| > |s| then NPOS
    else if OccursAt(s, p, i) then i
    else FindFrom(s, p, i + 1)
  }

  /** `s.find(p)`: the index of the first occurrence of `p` in `s`, or `NPOS`. */
  function Find(s: string, p: string): (r: nat)
    ensures r != NPOS ==> FirstOccursAt(s, p, r)
    ensures r == NPOS ==> forall j :: 0 <= j < |s| && j < NPOS ==> !OccursAt(s, p, j)
  {
    FindFrom(s, p, 0)
  }

  /** A first occurrence below `NPOS` is exactly what `find` reports. */
  lemma FindFirstOccurrence(s: string, p: string, i: nat)
    requires i < NPOS
    ensures Find(s, p) == i <==> FirstOccursAt(s, p, i)
  {
  }
}
