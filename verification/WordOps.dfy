/** The bitwise operations on 64-bit words, named so that a proof can leave their
    meaning aside. */
module WordOps {
  function And(a: bv64, b: bv64): bv64 { a & b }
  function Or(a: bv64, b: bv64): bv64 { a | b }
  function Xor(a: bv64, b: bv64): bv64 { a ^ b }
  function Not(w: bv64): bv64 { !w }
  function Shr(w: bv64, k: bv6): bv64 { w >> k }
}
