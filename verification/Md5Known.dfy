/** The digest the repository's own unit test expects of "Test string", computed step by
    step. The definitions of Md5Spec are shared by the unrolled rounds and by the digest
    they are compared with; this fixes what they compute: a table entry, a rotation, an
    auxiliary function, a word order or a padding byte that were wrong would show here.

    The literals of a round stand in one lemma for each kind of fact, as bit vectors and
    integers are cheap to compute with only apart from each other. */
module Md5Known {
  import opened Md5Spec
  import opened Md5

  const TEXT: seq<byte> := [0x54, 0x65, 0x73, 0x74, 0x20, 0x73, 0x74, 0x72, 0x69, 0x6e, 0x67]

  /** The one block of the padded text. */
  ghost predicate Block(x: seq<word>) {
    && |x| == 16 && x[0] == 0x74736554 && x[1] == 0x72747320 && x[2] == 0x80676e69 && x[14] == 88
    && forall i :: 3 <= i < 16 && i != 14 ==> x[i] == 0
  }

  /** One step, from its five intermediate values. */
  lemma {:induction false} Step(i: nat, n: nat, r: Regs, x: seq<word>, f: word, t: word, sum: word, turned: word, b: word)
    requires i + n <= 64 && 0 < n && |x| == 16
    requires f == Auxiliary(i, r.b, r.c, r.d) && t == T(i) && sum == Add(Add(Add(r.a, f), x[K(i)]), t)
    requires turned == RotateLeft(sum, S(i)) && b == Add(r.b, turned)
    ensures Operations(i, n, r, x) == Operations(i + 1, n - 1, Regs(r.d, b, r.b, r.c), x)
  {
    hide RotateLeft, T, K, S, Auxiliary, Add;
  }

  lemma {:induction false} NoSteps(i: nat, r: Regs, x: seq<word>)
    requires i <= 64 && |x| == 16
    ensures Operations(i, 0, r, x) == r
  {
  }

  // ---------------------------------------------------------------- round 1

  lemma {:induction false} Auxiliaries1()
    ensures Auxiliary(0, 0xefcdab89, 0x98badcfe, 0x10325476) == 0x98badcfe
    ensures Auxiliary(1, 0xded2912e, 0xefcdab89, 0x98badcfe) == 0xcee8cdd8
    ensures Auxiliary(2, 0x539ed4d3, 0xded2912e, 0xefcdab89) == 0xfed3bb0a
    ensures Auxiliary(3, 0x42374cff, 0x539ed4d3, 0xded2912e) == 0xded6d5d3
    ensures Auxiliary(4, 0x54db6593, 0x42374cff, 0x539ed4d3) == 0x4317d4d3
    ensures Auxiliary(5, 0x08163d9e, 0x54db6593, 0x42374cff) == 0x423365f3
    ensures Auxiliary(6, 0xa8254b73, 0x08163d9e, 0x54db6593) == 0x5cde2d92
    ensures Auxiliary(7, 0x296dd9fe, 0xa8254b73, 0x08163d9e) == 0x28376d72
    ensures Auxiliary(8, 0x2b0c7058, 0x296dd9fe, 0xa8254b73) == 0xa92d5b7b
    ensures Auxiliary(9, 0x8d2568e5, 0x2b0c7058, 0x296dd9fe) == 0x294cf15a
    ensures Auxiliary(10, 0x006d2eb0, 0x8d2568e5, 0x2b0c7058) == 0x2b2578e8
    ensures Auxiliary(11, 0x5d9bd7d5, 0x006d2eb0, 0x8d2568e5) == 0x802d2eb0
    ensures Auxiliary(12, 0x0f28fd72, 0x5d9bd7d5, 0x006d2eb0) == 0x0d4dd7d0
    ensures Auxiliary(13, 0x10d1e8f5, 0x0f28fd72, 0x5d9bd7d5) == 0x4d0aff70
    ensures Auxiliary(14, 0x1acd1da6, 0x10d1e8f5, 0x0f28fd72) == 0x15e1e8f4
    ensures Auxiliary(15, 0x242b5194, 0x1acd1da6, 0x10d1e8f5) == 0x10d9b9e5
  {
  }

  lemma {:induction false} Tables1()
    ensures T(0) == 0xd76aa478 && K(0) == 0 && S(0) == 7
    ensures T(1) == 0xe8c7b756 && K(1) == 1 && S(1) == 12
    ensures T(2) == 0x242070db && K(2) == 2 && S(2) == 17
    ensures T(3) == 0xc1bdceee && K(3) == 3 && S(3) == 22
    ensures T(4) == 0xf57c0faf && K(4) == 4 && S(4) == 7
    ensures T(5) == 0x4787c62a && K(5) == 5 && S(5) == 12
    ensures T(6) == 0xa8304613 && K(6) == 6 && S(6) == 17
    ensures T(7) == 0xfd469501 && K(7) == 7 && S(7) == 22
    ensures T(8) == 0x698098d8 && K(8) == 8 && S(8) == 7
    ensures T(9) == 0x8b44f7af && K(9) == 9 && S(9) == 12
    ensures T(10) == 0xffff5bb1 && K(10) == 10 && S(10) == 17
    ensures T(11) == 0x895cd7be && K(11) == 11 && S(11) == 22
    ensures T(12) == 0x6b901122 && K(12) == 12 && S(12) == 7
    ensures T(13) == 0xfd987193 && K(13) == 13 && S(13) == 12
    ensures T(14) == 0xa679438e && K(14) == 14 && S(14) == 17
    ensures T(15) == 0x49b40821 && K(15) == 15 && S(15) == 22
  {
  }

  lemma {:induction false} Sums1()
    ensures Add(Add(Add(0x67452301, 0x98badcfe), 0x74736554), 0xd76aa478) == 0x4bde09cb && Add(0xefcdab89, 0xef04e5a5) == 0xded2912e
    ensures Add(Add(Add(0x10325476, 0xcee8cdd8), 0x72747320), 0xe8c7b756) == 0x3a574cc4 && Add(0xded2912e, 0x74cc43a5) == 0x539ed4d3
    ensures Add(Add(Add(0x98badcfe, 0xfed3bb0a), 0x80676e69), 0x242070db) == 0x3c16774c && Add(0x539ed4d3, 0xee98782c) == 0x42374cff
    ensures Add(Add(Add(0xefcdab89, 0xded6d5d3), 0), 0xc1bdceee) == 0x9062504a && Add(0x42374cff, 0x12a41894) == 0x54db6593
    ensures Add(Add(Add(0xded2912e, 0x4317d4d3), 0), 0xf57c0faf) == 0x176675b0 && Add(0x54db6593, 0xb33ad80b) == 0x08163d9e
    ensures Add(Add(Add(0x539ed4d3, 0x423365f3), 0), 0x4787c62a) == 0xdd5a00f0 && Add(0x08163d9e, 0xa00f0dd5) == 0xa8254b73
    ensures Add(Add(Add(0x42374cff, 0x5cde2d92), 0), 0xa8304613) == 0x4745c0a4 && Add(0xa8254b73, 0x81488e8b) == 0x296dd9fe
    ensures Add(Add(Add(0x54db6593, 0x28376d72), 0), 0xfd469501) == 0x7a596806 && Add(0x296dd9fe, 0x019e965a) == 0x2b0c7058
    ensures Add(Add(Add(0x08163d9e, 0xa92d5b7b), 0), 0x698098d8) == 0x1ac431f1 && Add(0x2b0c7058, 0x6218f88d) == 0x8d2568e5
    ensures Add(Add(Add(0xa8254b73, 0x294cf15a), 0), 0x8b44f7af) == 0x5cb7347c && Add(0x8d2568e5, 0x7347c5cb) == 0x006d2eb0
    ensures Add(Add(Add(0x296dd9fe, 0x2b2578e8), 0), 0xffff5bb1) == 0x5492ae97 && Add(0x006d2eb0, 0x5d2ea925) == 0x5d9bd7d5
    ensures Add(Add(Add(0x2b0c7058, 0x802d2eb0), 0), 0x895cd7be) == 0x349676c6 && Add(0x5d9bd7d5, 0xb18d259d) == 0x0f28fd72
    ensures Add(Add(Add(0x8d2568e5, 0x0d4dd7d0), 0), 0x6b901122) == 0x060351d7 && Add(0x0f28fd72, 0x01a8eb83) == 0x10d1e8f5
    ensures Add(Add(Add(0x006d2eb0, 0x4d0aff70), 0), 0xfd987193) == 0x4b109fb3 && Add(0x10d1e8f5, 0x09fb34b1) == 0x1acd1da6
    ensures Add(Add(Add(0x5d9bd7d5, 0x15e1e8f4), 88), 0xa679438e) == 0x19f704af && Add(0x1acd1da6, 0x095e33ee) == 0x242b5194
    ensures Add(Add(Add(0x0f28fd72, 0x10d9b9e5), 0), 0x49b40821) == 0x69b6bf78 && Add(0x242b5194, 0xde1a6daf) == 0x0245bf43
  {
  }

  lemma {:induction false} Turns1()
    ensures RotateLeft(0x4bde09cb, 7) == 0xef04e5a5
    ensures RotateLeft(0x3a574cc4, 12) == 0x74cc43a5
    ensures RotateLeft(0x3c16774c, 17) == 0xee98782c
    ensures RotateLeft(0x9062504a, 22) == 0x12a41894
    ensures RotateLeft(0x176675b0, 7) == 0xb33ad80b
    ensures RotateLeft(0xdd5a00f0, 12) == 0xa00f0dd5
    ensures RotateLeft(0x4745c0a4, 17) == 0x81488e8b
    ensures RotateLeft(0x7a596806, 22) == 0x019e965a
    ensures RotateLeft(0x1ac431f1, 7) == 0x6218f88d
    ensures RotateLeft(0x5cb7347c, 12) == 0x7347c5cb
    ensures RotateLeft(0x5492ae97, 17) == 0x5d2ea925
    ensures RotateLeft(0x349676c6, 22) == 0xb18d259d
    ensures RotateLeft(0x060351d7, 7) == 0x01a8eb83
    ensures RotateLeft(0x4b109fb3, 12) == 0x09fb34b1
    ensures RotateLeft(0x19f704af, 17) == 0x095e33ee
    ensures RotateLeft(0x69b6bf78, 22) == 0xde1a6daf
  {
  }

  lemma {:induction false} Round1(x: seq<word>)
    requires Block(x)
    ensures Operations(0, 16, Regs(0x67452301, 0xefcdab89, 0x98badcfe, 0x10325476), x) == Regs(0x10d1e8f5, 0x0245bf43, 0x242b5194, 0x1acd1da6)
  {
    Auxiliaries1();
    Tables1();
    Sums1();
    Turns1();
    hide Operations, Operation, Auxiliary, F, G, H, I, T, K, S, Add, RotateLeft;
    Step(0, 16, Regs(0x67452301, 0xefcdab89, 0x98badcfe, 0x10325476), x, 0x98badcfe, 0xd76aa478, 0x4bde09cb, 0xef04e5a5, 0xded2912e);
    Step(1, 15, Regs(0x10325476, 0xded2912e, 0xefcdab89, 0x98badcfe), x, 0xcee8cdd8, 0xe8c7b756, 0x3a574cc4, 0x74cc43a5, 0x539ed4d3);
    Step(2, 14, Regs(0x98badcfe, 0x539ed4d3, 0xded2912e, 0xefcdab89), x, 0xfed3bb0a, 0x242070db, 0x3c16774c, 0xee98782c, 0x42374cff);
    Step(3, 13, Regs(0xefcdab89, 0x42374cff, 0x539ed4d3, 0xded2912e), x, 0xded6d5d3, 0xc1bdceee, 0x9062504a, 0x12a41894, 0x54db6593);
    Step(4, 12, Regs(0xded2912e, 0x54db6593, 0x42374cff, 0x539ed4d3), x, 0x4317d4d3, 0xf57c0faf, 0x176675b0, 0xb33ad80b, 0x08163d9e);
    Step(5, 11, Regs(0x539ed4d3, 0x08163d9e, 0x54db6593, 0x42374cff), x, 0x423365f3, 0x4787c62a, 0xdd5a00f0, 0xa00f0dd5, 0xa8254b73);
    Step(6, 10, Regs(0x42374cff, 0xa8254b73, 0x08163d9e, 0x54db6593), x, 0x5cde2d92, 0xa8304613, 0x4745c0a4, 0x81488e8b, 0x296dd9fe);
    Step(7, 9, Regs(0x54db6593, 0x296dd9fe, 0xa8254b73, 0x08163d9e), x, 0x28376d72, 0xfd469501, 0x7a596806, 0x019e965a, 0x2b0c7058);
    Step(8, 8, Regs(0x08163d9e, 0x2b0c7058, 0x296dd9fe, 0xa8254b73), x, 0xa92d5b7b, 0x698098d8, 0x1ac431f1, 0x6218f88d, 0x8d2568e5);
    Step(9, 7, Regs(0xa8254b73, 0x8d2568e5, 0x2b0c7058, 0x296dd9fe), x, 0x294cf15a, 0x8b44f7af, 0x5cb7347c, 0x7347c5cb, 0x006d2eb0);
    Step(10, 6, Regs(0x296dd9fe, 0x006d2eb0, 0x8d2568e5, 0x2b0c7058), x, 0x2b2578e8, 0xffff5bb1, 0x5492ae97, 0x5d2ea925, 0x5d9bd7d5);
    Step(11, 5, Regs(0x2b0c7058, 0x5d9bd7d5, 0x006d2eb0, 0x8d2568e5), x, 0x802d2eb0, 0x895cd7be, 0x349676c6, 0xb18d259d, 0x0f28fd72);
    Step(12, 4, Regs(0x8d2568e5, 0x0f28fd72, 0x5d9bd7d5, 0x006d2eb0), x, 0x0d4dd7d0, 0x6b901122, 0x060351d7, 0x01a8eb83, 0x10d1e8f5);
    Step(13, 3, Regs(0x006d2eb0, 0x10d1e8f5, 0x0f28fd72, 0x5d9bd7d5), x, 0x4d0aff70, 0xfd987193, 0x4b109fb3, 0x09fb34b1, 0x1acd1da6);
    Step(14, 2, Regs(0x5d9bd7d5, 0x1acd1da6, 0x10d1e8f5, 0x0f28fd72), x, 0x15e1e8f4, 0xa679438e, 0x19f704af, 0x095e33ee, 0x242b5194);
    Step(15, 1, Regs(0x0f28fd72, 0x242b5194, 0x1acd1da6, 0x10d1e8f5), x, 0x10d9b9e5, 0x49b40821, 0x69b6bf78, 0xde1a6daf, 0x0245bf43);
    NoSteps(16, Regs(0x10d1e8f5, 0x0245bf43, 0x242b5194, 0x1acd1da6), x);
  }

  // ---------------------------------------------------------------- round 2

  lemma {:induction false} Auxiliaries2()
    ensures Auxiliary(16, 0x0245bf43, 0x242b5194, 0x1acd1da6) == 0x26675d12
    ensures Auxiliary(17, 0xfbc19076, 0x0245bf43, 0x242b5194) == 0x2245be57
    ensures Auxiliary(18, 0xa2e00c70, 0xfbc19076, 0x0245bf43) == 0xfbc00c74
    ensures Auxiliary(19, 0x10f65e02, 0xa2e00c70, 0xfbc19076) == 0x10e01c02
    ensures Auxiliary(20, 0x952d7302, 0x10f65e02, 0xa2e00c70) == 0x90365202
    ensures Auxiliary(21, 0xda0bcdae, 0x952d7302, 0x10f65e02) == 0x950b6d02
    ensures Auxiliary(22, 0x39275822, 0xda0bcdae, 0x952d7302) == 0x5b27dcae
    ensures Auxiliary(23, 0x4173a952, 0x39275822, 0xda0bcdae) == 0x61279902
    ensures Auxiliary(24, 0xbe418be2, 0x4173a952, 0x39275822) == 0x7851a972
    ensures Auxiliary(25, 0x462a2cb0, 0xbe418be2, 0x4173a952) == 0xfe222ab0
    ensures Auxiliary(26, 0x47402ea5, 0x462a2cb0, 0xbe418be2) == 0x466a2eb0
    ensures Auxiliary(27, 0x00a28dd1, 0x47402ea5, 0x462a2cb0) == 0x01620e95
    ensures Auxiliary(28, 0xf6e2ddab, 0x00a28dd1, 0x47402ea5) == 0x46e28df1
    ensures Auxiliary(29, 0xd4f75271, 0xf6e2ddab, 0x00a28dd1) == 0xf6e2507b
    ensures Auxiliary(30, 0xc81a55e7, 0xd4f75271, 0xf6e2ddab) == 0xc01757f3
    ensures Auxiliary(31, 0x02419ff1, 0xc81a55e7, 0xd4f75271) == 0x084917f7
  {
  }

  lemma {:induction false} Tables2()
    ensures T(16) == 0xf61e2562 && K(16) == 1 && S(16) == 5
    ensures T(17) == 0xc040b340 && K(17) == 6 && S(17) == 9
    ensures T(18) == 0x265e5a51 && K(18) == 11 && S(18) == 14
    ensures T(19) == 0xe9b6c7aa && K(19) == 0 && S(19) == 20
    ensures T(20) == 0xd62f105d && K(20) == 5 && S(20) == 5
    ensures T(21) == 0x02441453 && K(21) == 10 && S(21) == 9
    ensures T(22) == 0xd8a1e681 && K(22) == 15 && S(22) == 14
    ensures T(23) == 0xe7d3fbc8 && K(23) == 4 && S(23) == 20
    ensures T(24) == 0x21e1cde6 && K(24) == 9 && S(24) == 5
    ensures T(25) == 0xc33707d6 && K(25) == 14 && S(25) == 9
    ensures T(26) == 0xf4d50d87 && K(26) == 3 && S(26) == 14
    ensures T(27) == 0x455a14ed && K(27) == 8 && S(27) == 20
    ensures T(28) == 0xa9e3e905 && K(28) == 13 && S(28) == 5
    ensures T(29) == 0xfcefa3f8 && K(29) == 2 && S(29) == 9
    ensures T(30) == 0x676f02d9 && K(30) == 7 && S(30) == 14
    ensures T(31) == 0x8d2a4c8a && K(31) == 12 && S(31) == 20
  {
  }

  lemma {:induction false} Sums2()
    ensures Add(Add(Add(0x10d1e8f5, 0x26675d12), 0x72747320), 0xf61e2562) == 0x9fcbde89 && Add(0x0245bf43, 0xf97bd133) == 0xfbc19076
    ensures Add(Add(Add(0x1acd1da6, 0x2245be57), 0), 0xc040b340) == 0xfd538f3d && Add(0xfbc19076, 0xa71e7bfa) == 0xa2e00c70
    ensures Add(Add(Add(0x242b5194, 0xfbc00c74), 0), 0x265e5a51) == 0x4649b859 && Add(0xa2e00c70, 0x6e165192) == 0x10f65e02
    ensures Add(Add(Add(0x0245bf43, 0x10e01c02), 0x74736554), 0xe9b6c7aa) == 0x71500843 && Add(0x10f65e02, 0x84371500) == 0x952d7302
    ensures Add(Add(Add(0xfbc19076, 0x90365202), 0), 0xd62f105d) == 0x6226f2d5 && Add(0x952d7302, 0x44de5aac) == 0xda0bcdae
    ensures Add(Add(Add(0xa2e00c70, 0x950b6d02), 0), 0x02441453) == 0x3a2f8dc5 && Add(0xda0bcdae, 0x5f1b8a74) == 0x39275822
    ensures Add(Add(Add(0x10f65e02, 0x5b27dcae), 0), 0xd8a1e681) == 0x44c02131 && Add(0x39275822, 0x084c5130) == 0x4173a952
    ensures Add(Add(Add(0x952d7302, 0x61279902), 0), 0xe7d3fbc8) == 0xde2907cc && Add(0x4173a952, 0x7ccde290) == 0xbe418be2
    ensures Add(Add(Add(0xda0bcdae, 0x7851a972), 0), 0x21e1cde6) == 0x743f4506 && Add(0xbe418be2, 0x87e8a0ce) == 0x462a2cb0
    ensures Add(Add(Add(0x39275822, 0xfe222ab0), 88), 0xc33707d6) == 0xfa808b00 && Add(0x462a2cb0, 0x011601f5) == 0x47402ea5
    ensures Add(Add(Add(0x4173a952, 0x466a2eb0), 0), 0xf4d50d87) == 0x7cb2e589 && Add(0x47402ea5, 0xb9625f2c) == 0x00a28dd1
    ensures Add(Add(Add(0xbe418be2, 0x01620e95), 0), 0x455a14ed) == 0x04fdaf64 && Add(0x00a28dd1, 0xf6404fda) == 0xf6e2ddab
    ensures Add(Add(Add(0x462a2cb0, 0x46e28df1), 0), 0xa9e3e905) == 0x36f0a3a6 && Add(0xf6e2ddab, 0xde1474c6) == 0xd4f75271
    ensures Add(Add(Add(0x47402ea5, 0xf6e2507b), 0x80676e69), 0xfcefa3f8) == 0xbb799181 && Add(0xd4f75271, 0xf3230376) == 0xc81a55e7
    ensures Add(Add(Add(0x00a28dd1, 0xc01757f3), 0), 0x676f02d9) == 0x2828e89d && Add(0xc81a55e7, 0x3a274a0a) == 0x02419ff1
    ensures Add(Add(Add(0xf6e2ddab, 0x084917f7), 0), 0x8d2a4c8a) == 0x8c56422c && Add(0x02419ff1, 0x22c8c564) == 0x250a6555
  {
  }

  lemma {:induction false} Turns2()
    ensures RotateLeft(0x9fcbde89, 5) == 0xf97bd133
    ensures RotateLeft(0xfd538f3d, 9) == 0xa71e7bfa
    ensures RotateLeft(0x4649b859, 14) == 0x6e165192
    ensures RotateLeft(0x71500843, 20) == 0x84371500
    ensures RotateLeft(0x6226f2d5, 5) == 0x44de5aac
    ensures RotateLeft(0x3a2f8dc5, 9) == 0x5f1b8a74
    ensures RotateLeft(0x44c02131, 14) == 0x084c5130
    ensures RotateLeft(0xde2907cc, 20) == 0x7ccde290
    ensures RotateLeft(0x743f4506, 5) == 0x87e8a0ce
    ensures RotateLeft(0xfa808b00, 9) == 0x011601f5
    ensures RotateLeft(0x7cb2e589, 14) == 0xb9625f2c
    ensures RotateLeft(0x04fdaf64, 20) == 0xf6404fda
    ensures RotateLeft(0x36f0a3a6, 5) == 0xde1474c6
    ensures RotateLeft(0xbb799181, 9) == 0xf3230376
    ensures RotateLeft(0x2828e89d, 14) == 0x3a274a0a
    ensures RotateLeft(0x8c56422c, 20) == 0x22c8c564
  {
  }

  lemma {:induction false} Round2(x: seq<word>)
    requires Block(x)
    ensures Operations(16, 16, Regs(0x10d1e8f5, 0x0245bf43, 0x242b5194, 0x1acd1da6), x) == Regs(0xd4f75271, 0x250a6555, 0x02419ff1, 0xc81a55e7)
  {
    Auxiliaries2();
    Tables2();
    Sums2();
    Turns2();
    hide Operations, Operation, Auxiliary, F, G, H, I, T, K, S, Add, RotateLeft;
    Step(16, 16, Regs(0x10d1e8f5, 0x0245bf43, 0x242b5194, 0x1acd1da6), x, 0x26675d12, 0xf61e2562, 0x9fcbde89, 0xf97bd133, 0xfbc19076);
    Step(17, 15, Regs(0x1acd1da6, 0xfbc19076, 0x0245bf43, 0x242b5194), x, 0x2245be57, 0xc040b340, 0xfd538f3d, 0xa71e7bfa, 0xa2e00c70);
    Step(18, 14, Regs(0x242b5194, 0xa2e00c70, 0xfbc19076, 0x0245bf43), x, 0xfbc00c74, 0x265e5a51, 0x4649b859, 0x6e165192, 0x10f65e02);
    Step(19, 13, Regs(0x0245bf43, 0x10f65e02, 0xa2e00c70, 0xfbc19076), x, 0x10e01c02, 0xe9b6c7aa, 0x71500843, 0x84371500, 0x952d7302);
    Step(20, 12, Regs(0xfbc19076, 0x952d7302, 0x10f65e02, 0xa2e00c70), x, 0x90365202, 0xd62f105d, 0x6226f2d5, 0x44de5aac, 0xda0bcdae);
    Step(21, 11, Regs(0xa2e00c70, 0xda0bcdae, 0x952d7302, 0x10f65e02), x, 0x950b6d02, 0x02441453, 0x3a2f8dc5, 0x5f1b8a74, 0x39275822);
    Step(22, 10, Regs(0x10f65e02, 0x39275822, 0xda0bcdae, 0x952d7302), x, 0x5b27dcae, 0xd8a1e681, 0x44c02131, 0x084c5130, 0x4173a952);
    Step(23, 9, Regs(0x952d7302, 0x4173a952, 0x39275822, 0xda0bcdae), x, 0x61279902, 0xe7d3fbc8, 0xde2907cc, 0x7ccde290, 0xbe418be2);
    Step(24, 8, Regs(0xda0bcdae, 0xbe418be2, 0x4173a952, 0x39275822), x, 0x7851a972, 0x21e1cde6, 0x743f4506, 0x87e8a0ce, 0x462a2cb0);
    Step(25, 7, Regs(0x39275822, 0x462a2cb0, 0xbe418be2, 0x4173a952), x, 0xfe222ab0, 0xc33707d6, 0xfa808b00, 0x011601f5, 0x47402ea5);
    Step(26, 6, Regs(0x4173a952, 0x47402ea5, 0x462a2cb0, 0xbe418be2), x, 0x466a2eb0, 0xf4d50d87, 0x7cb2e589, 0xb9625f2c, 0x00a28dd1);
    Step(27, 5, Regs(0xbe418be2, 0x00a28dd1, 0x47402ea5, 0x462a2cb0), x, 0x01620e95, 0x455a14ed, 0x04fdaf64, 0xf6404fda, 0xf6e2ddab);
    Step(28, 4, Regs(0x462a2cb0, 0xf6e2ddab, 0x00a28dd1, 0x47402ea5), x, 0x46e28df1, 0xa9e3e905, 0x36f0a3a6, 0xde1474c6, 0xd4f75271);
    Step(29, 3, Regs(0x47402ea5, 0xd4f75271, 0xf6e2ddab, 0x00a28dd1), x, 0xf6e2507b, 0xfcefa3f8, 0xbb799181, 0xf3230376, 0xc81a55e7);
    Step(30, 2, Regs(0x00a28dd1, 0xc81a55e7, 0xd4f75271, 0xf6e2ddab), x, 0xc01757f3, 0x676f02d9, 0x2828e89d, 0x3a274a0a, 0x02419ff1);
    Step(31, 1, Regs(0xf6e2ddab, 0x02419ff1, 0xc81a55e7, 0xd4f75271), x, 0x084917f7, 0x8d2a4c8a, 0x8c56422c, 0x22c8c564, 0x250a6555);
    NoSteps(32, Regs(0xd4f75271, 0x250a6555, 0x02419ff1, 0xc81a55e7), x);
  }

  // ---------------------------------------------------------------- round 3

  lemma {:induction false} Auxiliaries3()
    ensures Auxiliary(32, 0x250a6555, 0x02419ff1, 0xc81a55e7) == 0xef51af43
    ensures Auxiliary(33, 0x693e14c1, 0x250a6555, 0x02419ff1) == 0x4e75ee65
    ensures Auxiliary(34, 0x7b1481b1, 0x693e14c1, 0x250a6555) == 0x3720f025
    ensures Auxiliary(35, 0x6c4d28b0, 0x7b1481b1, 0x693e14c1) == 0x7e67bdc0
    ensures Auxiliary(36, 0x291dd45d, 0x6c4d28b0, 0x7b1481b1) == 0x3e447d5c
    ensures Auxiliary(37, 0x147ccc78, 0x291dd45d, 0x6c4d28b0) == 0x512c3095
    ensures Auxiliary(38, 0x108c4538, 0x147ccc78, 0x291dd45d) == 0x2ded5d1d
    ensures Auxiliary(39, 0xe1b9d62d, 0x108c4538, 0x147ccc78) == 0xe5495f6d
    ensures Auxiliary(40, 0xff2069a5, 0xe1b9d62d, 0x108c4538) == 0x0e15fab0
    ensures Auxiliary(41, 0xb204c889, 0xff2069a5, 0xe1b9d62d) == 0xac9d7701
    ensures Auxiliary(42, 0xa451016a, 0xb204c889, 0xff2069a5) == 0xe975a046
    ensures Auxiliary(43, 0x4b49a188, 0xa451016a, 0xb204c889) == 0x5d1c686b
    ensures Auxiliary(44, 0xd5fa03ff, 0x4b49a188, 0xa451016a) == 0x3ae2a31d
    ensures Auxiliary(45, 0x41bdc1fb, 0xd5fa03ff, 0x4b49a188) == 0xdf0e638c
    ensures Auxiliary(46, 0x19b49d4c, 0x41bdc1fb, 0xd5fa03ff) == 0x8df35f48
    ensures Auxiliary(47, 0x977d962b, 0x19b49d4c, 0x41bdc1fb) == 0xcf74ca9c
  {
  }

  lemma {:induction false} Tables3()
    ensures T(32) == 0xfffa3942 && K(32) == 5 && S(32) == 4
    ensures T(33) == 0x8771f681 && K(33) == 8 && S(33) == 11
    ensures T(34) == 0x6d9d6122 && K(34) == 11 && S(34) == 16
    ensures T(35) == 0xfde5380c && K(35) == 14 && S(35) == 23
    ensures T(36) == 0xa4beea44 && K(36) == 1 && S(36) == 4
    ensures T(37) == 0x4bdecfa9 && K(37) == 4 && S(37) == 11
    ensures T(38) == 0xf6bb4b60 && K(38) == 7 && S(38) == 16
    ensures T(39) == 0xbebfbc70 && K(39) == 10 && S(39) == 23
    ensures T(40) == 0x289b7ec6 && K(40) == 13 && S(40) == 4
    ensures T(41) == 0xeaa127fa && K(41) == 0 && S(41) == 11
    ensures T(42) == 0xd4ef3085 && K(42) == 3 && S(42) == 16
    ensures T(43) == 0x04881d05 && K(43) == 6 && S(43) == 23
    ensures T(44) == 0xd9d4d039 && K(44) == 9 && S(44) == 4
    ensures T(45) == 0xe6db99e5 && K(45) == 12 && S(45) == 11
    ensures T(46) == 0x1fa27cf8 && K(46) == 15 && S(46) == 16
    ensures T(47) == 0xc4ac5665 && K(47) == 2 && S(47) == 23
  {
  }

  lemma {:induction false} Sums3()
    ensures Add(Add(Add(0xd4f75271, 0xef51af43), 0), 0xfffa3942) == 0xc4433af6 && Add(0x250a6555, 0x4433af6c) == 0x693e14c1
    ensures Add(Add(Add(0xc81a55e7, 0x4e75ee65), 0), 0x8771f681) == 0x9e023acd && Add(0x693e14c1, 0x11d66cf0) == 0x7b1481b1
    ensures Add(Add(Add(0x02419ff1, 0x3720f025), 0), 0x6d9d6122) == 0xa6fff138 && Add(0x7b1481b1, 0xf138a6ff) == 0x6c4d28b0
    ensures Add(Add(Add(0x250a6555, 0x7e67bdc0), 88), 0xfde5380c) == 0xa1575b79 && Add(0x6c4d28b0, 0xbcd0abad) == 0x291dd45d
    ensures Add(Add(Add(0x693e14c1, 0x3e447d5c), 0x72747320), 0xa4beea44) == 0xbeb5ef81 && Add(0x291dd45d, 0xeb5ef81b) == 0x147ccc78
    ensures Add(Add(Add(0x7b1481b1, 0x512c3095), 0), 0x4bdecfa9) == 0x181f81ef && Add(0x147ccc78, 0xfc0f78c0) == 0x108c4538
    ensures Add(Add(Add(0x6c4d28b0, 0x2ded5d1d), 0), 0xf6bb4b60) == 0x90f5d12d && Add(0x108c4538, 0xd12d90f5) == 0xe1b9d62d
    ensures Add(Add(Add(0x291dd45d, 0xe5495f6d), 0), 0xbebfbc70) == 0xcd26f03a && Add(0xe1b9d62d, 0x1d669378) == 0xff2069a5
    ensures Add(Add(Add(0x147ccc78, 0x0e15fab0), 0), 0x289b7ec6) == 0x4b2e45ee && Add(0xff2069a5, 0xb2e45ee4) == 0xb204c889
    ensures Add(Add(Add(0x108c4538, 0xac9d7701), 0x74736554), 0xeaa127fa) == 0x1c3e4987 && Add(0xb204c889, 0xf24c38e1) == 0xa451016a
    ensures Add(Add(Add(0xe1b9d62d, 0xe975a046), 0), 0xd4ef3085) == 0xa01ea6f8 && Add(0xa451016a, 0xa6f8a01e) == 0x4b49a188
    ensures Add(Add(Add(0xff2069a5, 0x5d1c686b), 0), 0x04881d05) == 0x60c4ef15 && Add(0x4b49a188, 0x8ab06277) == 0xd5fa03ff
    ensures Add(Add(Add(0xb204c889, 0x3ae2a31d), 0), 0xd9d4d039) == 0xc6bc3bdf && Add(0xd5fa03ff, 0x6bc3bdfc) == 0x41bdc1fb
    ensures Add(Add(Add(0xa451016a, 0xdf0e638c), 0), 0xe6db99e5) == 0x6a3afedb && Add(0x41bdc1fb, 0xd7f6db51) == 0x19b49d4c
    ensures Add(Add(Add(0x4b49a188, 0x8df35f48), 0), 0x1fa27cf8) == 0xf8df7dc8 && Add(0x19b49d4c, 0x7dc8f8df) == 0x977d962b
    ensures Add(Add(Add(0xd5fa03ff, 0xcf74ca9c), 0x80676e69), 0xc4ac5665) == 0xea829369 && Add(0x977d962b, 0xb4f54149) == 0x4c72d774
  {
  }

  lemma {:induction false} Turns3()
    ensures RotateLeft(0xc4433af6, 4) == 0x4433af6c
    ensures RotateLeft(0x9e023acd, 11) == 0x11d66cf0
    ensures RotateLeft(0xa6fff138, 16) == 0xf138a6ff
    ensures RotateLeft(0xa1575b79, 23) == 0xbcd0abad
    ensures RotateLeft(0xbeb5ef81, 4) == 0xeb5ef81b
    ensures RotateLeft(0x181f81ef, 11) == 0xfc0f78c0
    ensures RotateLeft(0x90f5d12d, 16) == 0xd12d90f5
    ensures RotateLeft(0xcd26f03a, 23) == 0x1d669378
    ensures RotateLeft(0x4b2e45ee, 4) == 0xb2e45ee4
    ensures RotateLeft(0x1c3e4987, 11) == 0xf24c38e1
    ensures RotateLeft(0xa01ea6f8, 16) == 0xa6f8a01e
    ensures RotateLeft(0x60c4ef15, 23) == 0x8ab06277
    ensures RotateLeft(0xc6bc3bdf, 4) == 0x6bc3bdfc
    ensures RotateLeft(0x6a3afedb, 11) == 0xd7f6db51
    ensures RotateLeft(0xf8df7dc8, 16) == 0x7dc8f8df
    ensures RotateLeft(0xea829369, 23) == 0xb4f54149
  {
  }

  lemma {:induction false} Round3(x: seq<word>)
    requires Block(x)
    ensures Operations(32, 16, Regs(0xd4f75271, 0x250a6555, 0x02419ff1, 0xc81a55e7), x) == Regs(0x41bdc1fb, 0x4c72d774, 0x977d962b, 0x19b49d4c)
  {
    Auxiliaries3();
    Tables3();
    Sums3();
    Turns3();
    hide Operations, Operation, Auxiliary, F, G, H, I, T, K, S, Add, RotateLeft;
    Step(32, 16, Regs(0xd4f75271, 0x250a6555, 0x02419ff1, 0xc81a55e7), x, 0xef51af43, 0xfffa3942, 0xc4433af6, 0x4433af6c, 0x693e14c1);
    Step(33, 15, Regs(0xc81a55e7, 0x693e14c1, 0x250a6555, 0x02419ff1), x, 0x4e75ee65, 0x8771f681, 0x9e023acd, 0x11d66cf0, 0x7b1481b1);
    Step(34, 14, Regs(0x02419ff1, 0x7b1481b1, 0x693e14c1, 0x250a6555), x, 0x3720f025, 0x6d9d6122, 0xa6fff138, 0xf138a6ff, 0x6c4d28b0);
    Step(35, 13, Regs(0x250a6555, 0x6c4d28b0, 0x7b1481b1, 0x693e14c1), x, 0x7e67bdc0, 0xfde5380c, 0xa1575b79, 0xbcd0abad, 0x291dd45d);
    Step(36, 12, Regs(0x693e14c1, 0x291dd45d, 0x6c4d28b0, 0x7b1481b1), x, 0x3e447d5c, 0xa4beea44, 0xbeb5ef81, 0xeb5ef81b, 0x147ccc78);
    Step(37, 11, Regs(0x7b1481b1, 0x147ccc78, 0x291dd45d, 0x6c4d28b0), x, 0x512c3095, 0x4bdecfa9, 0x181f81ef, 0xfc0f78c0, 0x108c4538);
    Step(38, 10, Regs(0x6c4d28b0, 0x108c4538, 0x147ccc78, 0x291dd45d), x, 0x2ded5d1d, 0xf6bb4b60, 0x90f5d12d, 0xd12d90f5, 0xe1b9d62d);
    Step(39, 9, Regs(0x291dd45d, 0xe1b9d62d, 0x108c4538, 0x147ccc78), x, 0xe5495f6d, 0xbebfbc70, 0xcd26f03a, 0x1d669378, 0xff2069a5);
    Step(40, 8, Regs(0x147ccc78, 0xff2069a5, 0xe1b9d62d, 0x108c4538), x, 0x0e15fab0, 0x289b7ec6, 0x4b2e45ee, 0xb2e45ee4, 0xb204c889);
    Step(41, 7, Regs(0x108c4538, 0xb204c889, 0xff2069a5, 0xe1b9d62d), x, 0xac9d7701, 0xeaa127fa, 0x1c3e4987, 0xf24c38e1, 0xa451016a);
    Step(42, 6, Regs(0xe1b9d62d, 0xa451016a, 0xb204c889, 0xff2069a5), x, 0xe975a046, 0xd4ef3085, 0xa01ea6f8, 0xa6f8a01e, 0x4b49a188);
    Step(43, 5, Regs(0xff2069a5, 0x4b49a188, 0xa451016a, 0xb204c889), x, 0x5d1c686b, 0x04881d05, 0x60c4ef15, 0x8ab06277, 0xd5fa03ff);
    Step(44, 4, Regs(0xb204c889, 0xd5fa03ff, 0x4b49a188, 0xa451016a), x, 0x3ae2a31d, 0xd9d4d039, 0xc6bc3bdf, 0x6bc3bdfc, 0x41bdc1fb);
    Step(45, 3, Regs(0xa451016a, 0x41bdc1fb, 0xd5fa03ff, 0x4b49a188), x, 0xdf0e638c, 0xe6db99e5, 0x6a3afedb, 0xd7f6db51, 0x19b49d4c);
    Step(46, 2, Regs(0x4b49a188, 0x19b49d4c, 0x41bdc1fb, 0xd5fa03ff), x, 0x8df35f48, 0x1fa27cf8, 0xf8df7dc8, 0x7dc8f8df, 0x977d962b);
    Step(47, 1, Regs(0xd5fa03ff, 0x977d962b, 0x19b49d4c, 0x41bdc1fb), x, 0xcf74ca9c, 0xc4ac5665, 0xea829369, 0xb4f54149, 0x4c72d774);
    NoSteps(48, Regs(0x41bdc1fb, 0x4c72d774, 0x977d962b, 0x19b49d4c), x);
  }

  // ---------------------------------------------------------------- round 4

  lemma {:induction false} Auxiliaries4()
    ensures Auxiliary(48, 0x4c72d774, 0x977d962b, 0x19b49d4c) == 0x790661dc
    ensures Auxiliary(49, 0x249db33c, 0x4c72d774, 0x977d962b) == 0x20ed2c88
    ensures Auxiliary(50, 0x57c36133, 0x249db33c, 0x4c72d774) == 0xd352da87
    ensures Auxiliary(51, 0xa21bec65, 0x57c36133, 0x249db33c) == 0xacb88dd4
    ensures Auxiliary(52, 0x525aa445, 0xa21bec65, 0x57c36133) == 0x586552a8
    ensures Auxiliary(53, 0xe9f28e3d, 0x525aa445, 0xa21bec65) == 0xafac3bfa
    ensures Auxiliary(54, 0xdb998c96, 0xe9f28e3d, 0x525aa445) == 0x164f5183
    ensures Auxiliary(55, 0x74cc68c3, 0xdb998c96, 0xe9f28e3d) == 0xad54f555
    ensures Auxiliary(56, 0xc64b5dd0, 0x74cc68c3, 0xdb998c96) == 0x92a3173a
    ensures Auxiliary(57, 0xd5d44f8b, 0xc64b5dd0, 0x74cc68c3) == 0x19bc826f
    ensures Auxiliary(58, 0xe1abe759, 0xd5d44f8b, 0xc64b5dd0) == 0x2c6ba8f4
    ensures Auxiliary(59, 0x8c118975, 0xe1abe759, 0xd5d44f8b) == 0x4f905e2c
    ensures Auxiliary(60, 0x3fbe05ee, 0x8c118975, 0xe1abe759) == 0xb3ef949b
    ensures Auxiliary(61, 0x8596b00e, 0x3fbe05ee, 0x8c118975) == 0xc840f360
    ensures Auxiliary(62, 0x24ca69aa, 0x8596b00e, 0x3fbe05ee) == 0x615d4bb5
    ensures Auxiliary(63, 0x2ff1b601, 0x24ca69aa, 0x8596b00e) == 0x5b33965b
  {
  }

  lemma {:induction false} Tables4()
    ensures T(48) == 0xf4292244 && K(48) == 0 && S(48) == 6
    ensures T(49) == 0x432aff97 && K(49) == 7 && S(49) == 10
    ensures T(50) == 0xab9423a7 && K(50) == 14 && S(50) == 15
    ensures T(51) == 0xfc93a039 && K(51) == 5 && S(51) == 21
    ensures T(52) == 0x655b59c3 && K(52) == 12 && S(52) == 6
    ensures T(53) == 0x8f0ccc92 && K(53) == 3 && S(53) == 10
    ensures T(54) == 0xffeff47d && K(54) == 10 && S(54) == 15
    ensures T(55) == 0x85845dd1 && K(55) == 1 && S(55) == 21
    ensures T(56) == 0x6fa87e4f && K(56) == 8 && S(56) == 6
    ensures T(57) == 0xfe2ce6e0 && K(57) == 15 && S(57) == 10
    ensures T(58) == 0xa3014314 && K(58) == 6 && S(58) == 15
    ensures T(59) == 0x4e0811a1 && K(59) == 13 && S(59) == 21
    ensures T(60) == 0xf7537e82 && K(60) == 4 && S(60) == 6
    ensures T(61) == 0xbd3af235 && K(61) == 11 && S(61) == 10
    ensures T(62) == 0x2ad7d2bb && K(62) == 2 && S(62) == 15
    ensures T(63) == 0xeb86d391 && K(63) == 9 && S(63) == 21
  {
  }

  lemma {:induction false} Sums4()
    ensures Add(Add(Add(0x41bdc1fb, 0x790661dc), 0x74736554), 0xf4292244) == 0x2360ab6f && Add(0x4c72d774, 0xd82adbc8) == 0x249db33c
    ensures Add(Add(Add(0x19b49d4c, 0x20ed2c88), 0), 0x432aff97) == 0x7dccc96b && Add(0x249db33c, 0x3325adf7) == 0x57c36133
    ensures Add(Add(Add(0x977d962b, 0xd352da87), 88), 0xab9423a7) == 0x166494b1 && Add(0x57c36133, 0x4a588b32) == 0xa21bec65
    ensures Add(Add(Add(0x4c72d774, 0xacb88dd4), 0), 0xfc93a039) == 0xf5bf0581 && Add(0xa21bec65, 0xb03eb7e0) == 0x525aa445
    ensures Add(Add(Add(0x249db33c, 0x586552a8), 0), 0x655b59c3) == 0xe25e5fa7 && Add(0x525aa445, 0x9797e9f8) == 0xe9f28e3d
    ensures Add(Add(Add(0x57c36133, 0xafac3bfa), 0), 0x8f0ccc92) == 0x967c69bf && Add(0xe9f28e3d, 0xf1a6fe59) == 0xdb998c96
    ensures Add(Add(Add(0xa21bec65, 0x164f5183), 0), 0xffeff47d) == 0xb85b3265 && Add(0xdb998c96, 0x9932dc2d) == 0x74cc68c3
    ensures Add(Add(Add(0x525aa445, 0xad54f555), 0x72747320), 0x85845dd1) == 0xf7a86a8b && Add(0x74cc68c3, 0x517ef50d) == 0xc64b5dd0
    ensures Add(Add(Add(0xe9f28e3d, 0x92a3173a), 0), 0x6fa87e4f) == 0xec3e23c6 && Add(0xc64b5dd0, 0x0f88f1bb) == 0xd5d44f8b
    ensures Add(Add(Add(0xdb998c96, 0x19bc826f), 0), 0xfe2ce6e0) == 0xf382f5e5 && Add(0xd5d44f8b, 0x0bd797ce) == 0xe1abe759
    ensures Add(Add(Add(0x74cc68c3, 0x2c6ba8f4), 0), 0xa3014314) == 0x443954cb && Add(0xe1abe759, 0xaa65a21c) == 0x8c118975
    ensures Add(Add(Add(0xc64b5dd0, 0x4f905e2c), 0), 0x4e0811a1) == 0x63e3cd9d && Add(0x8c118975, 0xb3ac7c79) == 0x3fbe05ee
    ensures Add(Add(Add(0xd5d44f8b, 0xb3ef949b), 0), 0xf7537e82) == 0x811762a8 && Add(0x3fbe05ee, 0x45d8aa20) == 0x8596b00e
    ensures Add(Add(Add(0xe1abe759, 0xc840f360), 0), 0xbd3af235) == 0x6727ccee && Add(0x8596b00e, 0x9f33b99c) == 0x24ca69aa
    ensures Add(Add(Add(0x8c118975, 0x615d4bb5), 0x80676e69), 0x2ad7d2bb) == 0x98ae164e && Add(0x24ca69aa, 0x0b274c57) == 0x2ff1b601
    ensures Add(Add(Add(0x3fbe05ee, 0x5b33965b), 0), 0xeb86d391) == 0x86786fda && Add(0x2ff1b601, 0xfb50cf0d) == 0x2b42850e
  {
  }

  lemma {:induction false} Turns4()
    ensures RotateLeft(0x2360ab6f, 6) == 0xd82adbc8
    ensures RotateLeft(0x7dccc96b, 10) == 0x3325adf7
    ensures RotateLeft(0x166494b1, 15) == 0x4a588b32
    ensures RotateLeft(0xf5bf0581, 21) == 0xb03eb7e0
    ensures RotateLeft(0xe25e5fa7, 6) == 0x9797e9f8
    ensures RotateLeft(0x967c69bf, 10) == 0xf1a6fe59
    ensures RotateLeft(0xb85b3265, 15) == 0x9932dc2d
    ensures RotateLeft(0xf7a86a8b, 21) == 0x517ef50d
    ensures RotateLeft(0xec3e23c6, 6) == 0x0f88f1bb
    ensures RotateLeft(0xf382f5e5, 10) == 0x0bd797ce
    ensures RotateLeft(0x443954cb, 15) == 0xaa65a21c
    ensures RotateLeft(0x63e3cd9d, 21) == 0xb3ac7c79
    ensures RotateLeft(0x811762a8, 6) == 0x45d8aa20
    ensures RotateLeft(0x6727ccee, 10) == 0x9f33b99c
    ensures RotateLeft(0x98ae164e, 15) == 0x0b274c57
    ensures RotateLeft(0x86786fda, 21) == 0xfb50cf0d
  {
  }

  lemma {:induction false} Round4(x: seq<word>)
    requires Block(x)
    ensures Operations(48, 16, Regs(0x41bdc1fb, 0x4c72d774, 0x977d962b, 0x19b49d4c), x) == Regs(0x8596b00e, 0x2b42850e, 0x2ff1b601, 0x24ca69aa)
  {
    Auxiliaries4();
    Tables4();
    Sums4();
    Turns4();
    hide Operations, Operation, Auxiliary, F, G, H, I, T, K, S, Add, RotateLeft;
    Step(48, 16, Regs(0x41bdc1fb, 0x4c72d774, 0x977d962b, 0x19b49d4c), x, 0x790661dc, 0xf4292244, 0x2360ab6f, 0xd82adbc8, 0x249db33c);
    Step(49, 15, Regs(0x19b49d4c, 0x249db33c, 0x4c72d774, 0x977d962b), x, 0x20ed2c88, 0x432aff97, 0x7dccc96b, 0x3325adf7, 0x57c36133);
    Step(50, 14, Regs(0x977d962b, 0x57c36133, 0x249db33c, 0x4c72d774), x, 0xd352da87, 0xab9423a7, 0x166494b1, 0x4a588b32, 0xa21bec65);
    Step(51, 13, Regs(0x4c72d774, 0xa21bec65, 0x57c36133, 0x249db33c), x, 0xacb88dd4, 0xfc93a039, 0xf5bf0581, 0xb03eb7e0, 0x525aa445);
    Step(52, 12, Regs(0x249db33c, 0x525aa445, 0xa21bec65, 0x57c36133), x, 0x586552a8, 0x655b59c3, 0xe25e5fa7, 0x9797e9f8, 0xe9f28e3d);
    Step(53, 11, Regs(0x57c36133, 0xe9f28e3d, 0x525aa445, 0xa21bec65), x, 0xafac3bfa, 0x8f0ccc92, 0x967c69bf, 0xf1a6fe59, 0xdb998c96);
    Step(54, 10, Regs(0xa21bec65, 0xdb998c96, 0xe9f28e3d, 0x525aa445), x, 0x164f5183, 0xffeff47d, 0xb85b3265, 0x9932dc2d, 0x74cc68c3);
    Step(55, 9, Regs(0x525aa445, 0x74cc68c3, 0xdb998c96, 0xe9f28e3d), x, 0xad54f555, 0x85845dd1, 0xf7a86a8b, 0x517ef50d, 0xc64b5dd0);
    Step(56, 8, Regs(0xe9f28e3d, 0xc64b5dd0, 0x74cc68c3, 0xdb998c96), x, 0x92a3173a, 0x6fa87e4f, 0xec3e23c6, 0x0f88f1bb, 0xd5d44f8b);
    Step(57, 7, Regs(0xdb998c96, 0xd5d44f8b, 0xc64b5dd0, 0x74cc68c3), x, 0x19bc826f, 0xfe2ce6e0, 0xf382f5e5, 0x0bd797ce, 0xe1abe759);
    Step(58, 6, Regs(0x74cc68c3, 0xe1abe759, 0xd5d44f8b, 0xc64b5dd0), x, 0x2c6ba8f4, 0xa3014314, 0x443954cb, 0xaa65a21c, 0x8c118975);
    Step(59, 5, Regs(0xc64b5dd0, 0x8c118975, 0xe1abe759, 0xd5d44f8b), x, 0x4f905e2c, 0x4e0811a1, 0x63e3cd9d, 0xb3ac7c79, 0x3fbe05ee);
    Step(60, 4, Regs(0xd5d44f8b, 0x3fbe05ee, 0x8c118975, 0xe1abe759), x, 0xb3ef949b, 0xf7537e82, 0x811762a8, 0x45d8aa20, 0x8596b00e);
    Step(61, 3, Regs(0xe1abe759, 0x8596b00e, 0x3fbe05ee, 0x8c118975), x, 0xc840f360, 0xbd3af235, 0x6727ccee, 0x9f33b99c, 0x24ca69aa);
    Step(62, 2, Regs(0x8c118975, 0x24ca69aa, 0x8596b00e, 0x3fbe05ee), x, 0x615d4bb5, 0x2ad7d2bb, 0x98ae164e, 0x0b274c57, 0x2ff1b601);
    Step(63, 1, Regs(0x3fbe05ee, 0x2ff1b601, 0x24ca69aa, 0x8596b00e), x, 0x5b33965b, 0xeb86d391, 0x86786fda, 0xfb50cf0d, 0x2b42850e);
    NoSteps(64, Regs(0x8596b00e, 0x2b42850e, 0x2ff1b601, 0x24ca69aa), x);
  }

  // ---------------------------------------------------------------- the block

  lemma {:induction false} LengthField()
    ensures LittleEndian(88, 8) == [88, 0, 0, 0, 0, 0, 0, 0]
  {
    hide LittleEndian;
    FirstByte(88, 8);
    FirstByte(0, 7);
    FirstByte(0, 6);
    FirstByte(0, 5);
    FirstByte(0, 4);
    FirstByte(0, 3);
    FirstByte(0, 2);
    FirstByte(0, 1);
    FirstByte(0, 0);
  }

  lemma {:induction false} PaddedText()
    ensures Padded(TEXT) == TEXT + [0x80] + seq(44, _ => 0) + [88, 0, 0, 0, 0, 0, 0, 0]
  {
    hide LittleEndian, PadLength;
    LengthField();
    assert PadLength(11, 1) == 45;
  }

  lemma {:induction false} TextBlock(p: seq<byte>)
    requires p == TEXT + [0x80] + seq(44, _ => 0) + [88, 0, 0, 0, 0, 0, 0, 0]
    ensures |p| == 64 && Block(Words(p))
  {
    hide FromBytes;
    forall i | 0 <= i < 16
      ensures Words(p)[i] == Assemble(p[4 * i], p[4 * i + 1], p[4 * i + 2], p[4 * i + 3])
    {
      AssembleIsFromBytes(p[4 * i..4 * i + 4]);
    }
  }

  lemma {:induction false} SixtyFourSteps(x: seq<word>)
    requires Block(x)
    ensures Operations(0, 64, INITIAL, x) == Regs(0x8596b00e, 0x2b42850e, 0x2ff1b601, 0x24ca69aa)
  {
    hide Operations;
    Round1(x);
    Round2(x);
    Round3(x);
    Round4(x);
    SplitSteps(0, 16, 48, INITIAL, x);
    SplitSteps(16, 16, 32, Regs(0x10d1e8f5, 0x0245bf43, 0x242b5194, 0x1acd1da6), x);
    SplitSteps(32, 16, 16, Regs(0xd4f75271, 0x250a6555, 0x02419ff1, 0xc81a55e7), x);
  }

  lemma {:induction false} LastSums()
    ensures Add(0x67452301, 0x8596b00e) == 0xecdbd30f && Add(0xefcdab89, 0x2b42850e) == 0x1b103097
    ensures Add(0x98badcfe, 0x2ff1b601) == 0xc8ac92ff && Add(0x10325476, 0x24ca69aa) == 0x34fcbe20
  {
  }

  lemma {:induction false} TextDigest()
    ensures Digest(TEXT) == Output(Regs(0xecdbd30f, 0x1b103097, 0xc8ac92ff, 0x34fcbe20))
  {
    hide Operations, Words, Padded, Add, Output;
    var p := Padded(TEXT);
    PaddedText();
    TextBlock(p);
    SixtyFourSteps(Words(p));
    LastSums();
    assert p[..0] == [] && p[0..] == p;
    assert Blocks(p) == Compress(INITIAL, p);
  }

  // ---------------------------------------------------------------- the hex form

  lemma {:induction false} HexConcat(a: seq<byte>, b: seq<byte>)
    ensures Hex(a + b) == Hex(a) + Hex(b)
  {
    if a == [] {
      assert a + b == b;
    } else {
      assert (a + b)[1..] == a[1..] + b;
      HexConcat(a[1..], b);
    }
  }

  lemma {:induction false} HexFour(b: seq<byte>)
    requires |b| == 4
    ensures Hex(b) == [Digit(b[0] / 16), Digit(b[0] % 16), Digit(b[1] / 16), Digit(b[1] % 16),
                       Digit(b[2] / 16), Digit(b[2] % 16), Digit(b[3] / 16), Digit(b[3] % 16)]
  {
    hide Digit;
    assert b[1..][1..] == b[2..] && b[2..][1..] == b[3..] && b[3..][1..] == [];
    assert Hex(b[3..]) == [Digit(b[3] / 16), Digit(b[3] % 16)];
    assert Hex(b[2..]) == [Digit(b[2] / 16), Digit(b[2] % 16)] + Hex(b[3..]);
    assert Hex(b[1..]) == [Digit(b[1] / 16), Digit(b[1] % 16)] + Hex(b[2..]);
  }

  lemma {:induction false} HexWord(w: word, b0: byte, b1: byte, b2: byte, b3: byte)
    requires w == Assemble(b0, b1, b2, b3)
    ensures Hex(LittleEndian(w, 4)) == [Digit(b0 / 16), Digit(b0 % 16), Digit(b1 / 16), Digit(b1 % 16),
                                        Digit(b2 / 16), Digit(b2 % 16), Digit(b3 / 16), Digit(b3 % 16)]
  {
    hide Digit, Hex, LittleEndian;
    AssembleIsImage(w, [b0, b1, b2, b3]);
    HexFour([b0, b1, b2, b3]);
  }

  lemma {:induction false} HexWords()
    ensures Hex(LittleEndian(0xecdbd30f, 4)) == "0fd3dbec"
    ensures Hex(LittleEndian(0x1b103097, 4)) == "9730101b"
    ensures Hex(LittleEndian(0xc8ac92ff, 4)) == "ff92acc8"
    ensures Hex(LittleEndian(0x34fcbe20, 4)) == "20befc34"
  {
    hide Hex, LittleEndian;
    HexWord(0xecdbd30f, 0x0f, 0xd3, 0xdb, 0xec);
    HexWord(0x1b103097, 0x97, 0x30, 0x10, 0x1b);
    HexWord(0xc8ac92ff, 0xff, 0x92, 0xac, 0xc8);
    HexWord(0x34fcbe20, 0x20, 0xbe, 0xfc, 0x34);
  }

  /** The digest of "Test string". */
  lemma {:induction false} KnownDigest()
    ensures TEXT == seq(11, i requires 0 <= i < 11 => "Test string"[i] as int)
    ensures Hex(Digest(TEXT)) == "0fd3dbec9730101bff92acc820befc34"
  {
    TextDigest();
    HexWords();
    hide Digest, Hex, LittleEndian;
    var a, b, c, d := LittleEndian(0xecdbd30f, 4), LittleEndian(0x1b103097, 4), LittleEndian(0xc8ac92ff, 4), LittleEndian(0x34fcbe20, 4);
    HexConcat(a + b + c, d);
    HexConcat(a + b, c);
    HexConcat(a, b);
  }
}
