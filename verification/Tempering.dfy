/** The tempering of MT19937 and its inverse. */
module Tempering {

  function Xor(a: bv32, b: bv32): bv32 { a ^ b }

  function Right11(y: bv32): bv32 { y >> 11 }

  function Right22(y: bv32): bv32 { y >> 22 }

  function Right18(y: bv32): bv32 { y >> 18 }

  function Fold11(y: bv32): bv32 { Xor(y, Right11(y)) }

  function Fold7(y: bv32): bv32 { y ^ ((y << 7) & 0x9d2c5680) }

  function Fold15(y: bv32): bv32 { y ^ ((y << 15) & 0xefc60000) }

  function Fold18(y: bv32): bv32 { Xor(y, Right18(y)) }

  function Temper(y: bv32): bv32 {
    Fold18(Fold15(Fold7(Fold11(y))))
  }

  /** Known values: of the first three words that seed 5489 makes, and of the word of ones. */
  lemma TemperExample()
    ensures Temper(2601187879) == 3499211612 && Temper(3919438689) == 581869302
    ensures Temper(2270374771) == 3890346734 && Temper(0xffff_ffff) == 0x6fe0_1bf8
  {
  }

  function Unfold11(z: bv32): bv32 { Xor(z, Xor(Right11(z), Right22(z))) }

  function Unfold7(z: bv32): bv32 {
    var y1 := z ^ ((z << 7) & 0x9d2c5680);
    var y2 := z ^ ((y1 << 7) & 0x9d2c5680);
    var y3 := z ^ ((y2 << 7) & 0x9d2c5680);
    z ^ ((y3 << 7) & 0x9d2c5680)
  }

  function Untemper(z: bv32): bv32 {
    Unfold11(Unfold7(Fold15(Fold18(z))))
  }

  lemma Cancel(y: bv32, s: bv32)
    ensures Xor(Xor(y, s), s) == y
  {
  }

  lemma CancelTwo(y: bv32, a: bv32, b: bv32)
    ensures Xor(Xor(y, a), Xor(Xor(a, b), b)) == y
  {
  }

  lemma Shift18(y: bv32)
    ensures Right18(Fold18(y)) == Right18(y)
  {
  }

  lemma Inverse18(y: bv32)
    ensures Fold18(Fold18(y)) == y
  {
    Shift18(y);
    Cancel(y, Right18(y));
  }

  lemma RightXor(a: bv32, b: bv32)
    ensures Right11(Xor(a, b)) == Xor(Right11(a), Right11(b)) && Right22(Xor(a, b)) == Xor(Right22(a), Right22(b))
  {
  }

  lemma RightTwice(y: bv32)
    ensures Right11(Right11(y)) == Right22(y) && Right11(Right22(y)) == 0 && Right22(Right11(y)) == 0
    ensures Xor(Right22(y), 0) == Right22(y)
  {
  }

  lemma Shift11(y: bv32)
    ensures Right11(Fold11(y)) == Xor(Right11(y), Right22(y)) && Right22(Fold11(y)) == Right22(y)
  {
    RightXor(y, Right11(y));
    RightTwice(y);
  }

  lemma Inverse11(y: bv32)
    ensures Unfold11(Fold11(y)) == y
  {
    Shift11(y);
    CancelTwo(y, Right11(y), Right22(y));
  }

  lemma Shift11Back(y: bv32)
    ensures Right11(Unfold11(y)) == Xor(Right11(y), Right22(y))
  {
    RightXor(y, Xor(Right11(y), Right22(y)));
    RightXor(Right11(y), Right22(y));
    RightTwice(y);
  }

  lemma Inverse11Back(y: bv32)
    ensures Fold11(Unfold11(y)) == y
  {
    Shift11Back(y);
    Cancel(y, Xor(Right11(y), Right22(y)));
  }

  lemma Inverse7(y: bv32)
    ensures Unfold7(Fold7(y)) == y
  {
  }

  lemma Inverse7Back(y: bv32)
    ensures Fold7(Unfold7(y)) == y
  {
  }

  lemma Inverse15(y: bv32)
    ensures Fold15(Fold15(y)) == y
  {
  }

  lemma Backward(y: bv32)
    ensures Untemper(Temper(y)) == y
  {
    var y1 := Fold11(y);
    var y2 := Fold7(y1);
    Inverse18(Fold15(y2));
    Inverse15(y2);
    Inverse7(y1);
    Inverse11(y);
  }

  lemma Forward(z: bv32)
    ensures Temper(Untemper(z)) == z
  {
    var z1 := Fold18(z);
    var z2 := Fold15(z1);
    Inverse11Back(Unfold7(z2));
    Inverse7Back(z2);
    Inverse15(z1);
    Inverse18(z);
  }

  /** Tempering is one to one, and onto: `Untemper` undoes it on both sides. */
  lemma TemperBijection(y: bv32)
    ensures Untemper(Temper(y)) == y && Temper(Untemper(y)) == y
  {
    Backward(y);
    Forward(y);
  }
}
