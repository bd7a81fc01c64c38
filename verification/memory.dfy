/** The `int` cells that `swapInt` reaches through its two pointers.

    A pointer is modelled as an index into a sequence of cells; the two
    pointers may alias.
 */
module Memory {

  /** `swapInt(a, b)`: the cells at `a` and `b` exchange their values and no
      other cell changes. When both pointers name the same cell the memory is
      left as it was. */
  function SwapInt(mem: seq<int>, a: nat, b: nat): (r: seq<int>)
    requires a < |mem| && b < |mem|
    ensures |r| == |mem|
    ensures r[a] == mem[b] && r[b] == mem[a]
    ensures forall k :: 0 <= k < |mem| && k != a && k != b ==> r[k] == mem[k]
  {
    var t := mem[a];
    var mem1 := mem[a := mem[b]];
    mem1[b := t]
  }

  /** Swapping never creates or loses a value: the memory holds the same
      multiset of values afterwards. */
  lemma SwapIntPermutes(mem: seq<int>, a: nat, b: nat)
    requires a < |mem| && b < |mem|
    ensures multiset(SwapInt(mem, a, b)) == multiset(mem)
  {
  }

  /** Swapping twice restores the memory. */
  lemma SwapIntInvolution(mem: seq<int>, a: nat, b: nat)
    requires a < |mem| && b < |mem|
    ensures SwapInt(SwapInt(mem, a, b), a, b) == mem
  {
    var r := SwapInt(SwapInt(mem, a, b), a, b);
    assert forall k :: 0 <= k < |mem| ==> r[k] == mem[k];
  }

  /** The order of the two pointers does not matter. */
  lemma SwapIntSymmetric(mem: seq<int>, a: nat, b: nat)
    requires a < |mem| && b < |mem|
    ensures SwapInt(mem, a, b) == SwapInt(mem, b, a)
  {
    var r, r' := SwapInt(mem, a, b), SwapInt(mem, b, a);
    assert forall k :: 0 <= k < |mem| ==> r[k] == r'[k];
  }
}
