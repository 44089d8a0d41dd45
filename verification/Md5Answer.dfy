/** A known answer: the digest of "abc" in the test suite of section A.5 of RFC 1321, step by step. */
module Md5Answer {
  import opened Words
  import opened Md5Compress
  import opened Md5

  const ABC: Bytes := [0x61, 0x62, 0x63]

  /** The words of the only block of the padded message. */
  const BLOCK: seq<Word> := [0x80636261, 0, 0, 0, 0, 0, 0, 0, 0, 0, 0, 0, 0, 0, 24, 0]

  lemma Values1()
    ensures Mix(0x67452301, 0xefcdab89, F(0xefcdab89, 0x98badcfe, 0x10325476), 0x80636261, 7, 0xd76aa478) == 0xd6d117b4
    ensures Mix(0x10325476, 0xd6d117b4, F(0xd6d117b4, 0xefcdab89, 0x98badcfe), 0x00000000, 12, 0xe8c7b756) == 0x344a8432
    ensures Mix(0x98badcfe, 0x344a8432, F(0x344a8432, 0xd6d117b4, 0xefcdab89), 0x00000000, 17, 0x242070db) == 0x2f6fbd72
    ensures Mix(0xefcdab89, 0x2f6fbd72, F(0x2f6fbd72, 0x344a8432, 0xd6d117b4), 0x00000000, 22, 0xc1bdceee) == 0x7ad956f2
    ensures Mix(0xd6d117b4, 0x7ad956f2, F(0x7ad956f2, 0x2f6fbd72, 0x344a8432), 0x00000000, 7, 0xf57c0faf) == 0xc73741ef
    ensures Mix(0x344a8432, 0xc73741ef, F(0xc73741ef, 0x7ad956f2, 0x2f6fbd72), 0x00000000, 12, 0x4787c62a) == 0x8bac3051
    ensures Mix(0x2f6fbd72, 0x8bac3051, F(0x8bac3051, 0xc73741ef, 0x7ad956f2), 0x00000000, 17, 0xa8304613) == 0x207dc67b
    ensures Mix(0x7ad956f2, 0x207dc67b, F(0x207dc67b, 0x8bac3051, 0xc73741ef), 0x00000000, 22, 0xfd469501) == 0x928d99f6
    ensures Mix(0xc73741ef, 0x928d99f6, F(0x928d99f6, 0x207dc67b, 0x8bac3051), 0x00000000, 7, 0x698098d8) == 0x854b3712
    ensures Mix(0x8bac3051, 0x854b3712, F(0x854b3712, 0x928d99f6, 0x207dc67b), 0x00000000, 12, 0x8b44f7af) == 0x74e2f284
    ensures Mix(0x207dc67b, 0x74e2f284, F(0x74e2f284, 0x854b3712, 0x928d99f6), 0x00000000, 17, 0xffff5bb1) == 0x3020401c
    ensures Mix(0x928d99f6, 0x3020401c, F(0x3020401c, 0x74e2f284, 0x854b3712), 0x00000000, 22, 0x895cd7be) == 0x5ed49596
    ensures Mix(0x854b3712, 0x5ed49596, F(0x5ed49596, 0x3020401c, 0x74e2f284), 0x00000000, 7, 0x6b901122) == 0xdda9b9a6
    ensures Mix(0x74e2f284, 0xdda9b9a6, F(0xdda9b9a6, 0x5ed49596, 0x3020401c), 0x00000000, 12, 0xfd987193) == 0xa1051895
    ensures Mix(0x3020401c, 0xa1051895, F(0xa1051895, 0xdda9b9a6, 0x5ed49596), 0x00000018, 17, 0xa679438e) == 0xe396856b
    ensures Mix(0x5ed49596, 0xe396856b, F(0xe396856b, 0xa1051895, 0xdda9b9a6), 0x00000000, 22, 0x49b40821) == 0x72aff2e0
  {
  }

  lemma Values2()
    ensures Mix(0xdda9b9a6, 0x72aff2e0, G(0x72aff2e0, 0xe396856b, 0xa1051895), 0x00000000, 5, 0xf61e2562) == 0x3e9e9126
    ensures Mix(0xa1051895, 0x3e9e9126, G(0x3e9e9126, 0x72aff2e0, 0xe396856b), 0x00000000, 9, 0xc040b340) == 0x4a1d804e
    ensures Mix(0xe396856b, 0x4a1d804e, G(0x4a1d804e, 0x3e9e9126, 0x72aff2e0), 0x00000000, 14, 0x265e5a51) == 0xe25e1652
    ensures Mix(0x72aff2e0, 0xe25e1652, G(0xe25e1652, 0x4a1d804e, 0x3e9e9126), 0x80636261, 20, 0xe9b6c7aa) == 0xb5b204e4
    ensures Mix(0x3e9e9126, 0xb5b204e4, G(0xb5b204e4, 0xe25e1652, 0x4a1d804e), 0x00000000, 5, 0xd62f105d) == 0x59a8ffda
    ensures Mix(0x4a1d804e, 0x59a8ffda, G(0x59a8ffda, 0xb5b204e4, 0xe25e1652), 0x00000000, 9, 0x02441453) == 0x6d002f1e
    ensures Mix(0xe25e1652, 0x6d002f1e, G(0x6d002f1e, 0x59a8ffda, 0xb5b204e4), 0x00000000, 14, 0xd8a1e681) == 0xabfc7920
    ensures Mix(0xb5b204e4, 0xabfc7920, G(0xabfc7920, 0x6d002f1e, 0x59a8ffda), 0x00000000, 20, 0xe7d3fbc8) == 0x47092c07
    ensures Mix(0x59a8ffda, 0x47092c07, G(0x47092c07, 0xabfc7920, 0x6d002f1e), 0x00000000, 5, 0x21e1cde6) == 0xb7f268cf
    ensures Mix(0x6d002f1e, 0xb7f268cf, G(0xb7f268cf, 0x47092c07, 0xabfc7920), 0x00000018, 9, 0xc33707d6) == 0x09388eff
    ensures Mix(0xabfc7920, 0x09388eff, G(0x09388eff, 0xb7f268cf, 0x47092c07), 0x00000000, 14, 0xf4d50d87) == 0xfe1623b1
    ensures Mix(0x47092c07, 0xfe1623b1, G(0xfe1623b1, 0x09388eff, 0xb7f268cf), 0x00000000, 20, 0x455a14ed) == 0x786acb8f
    ensures Mix(0xb7f268cf, 0x786acb8f, G(0x786acb8f, 0xfe1623b1, 0x09388eff), 0x00000000, 5, 0xa9e3e905) == 0x790a77fb
    ensures Mix(0x09388eff, 0x790a77fb, G(0x790a77fb, 0x786acb8f, 0xfe1623b1), 0x00000000, 9, 0xfcefa3f8) == 0x9f47e4f8
    ensures Mix(0xfe1623b1, 0x9f47e4f8, G(0x9f47e4f8, 0x790a77fb, 0x786acb8f), 0x00000000, 14, 0x676f02d9) == 0xa62884aa
    ensures Mix(0x786acb8f, 0xa62884aa, G(0xa62884aa, 0x9f47e4f8, 0x790a77fb), 0x00000000, 20, 0x8d2a4c8a) == 0x726342d3
  {
  }

  lemma Values3()
    ensures Mix(0x790a77fb, 0x726342d3, H(0x726342d3, 0xa62884aa, 0x9f47e4f8), 0x00000000, 4, 0xfffa3942) == 0xb3707ebf
    ensures Mix(0x9f47e4f8, 0xb3707ebf, H(0xb3707ebf, 0x726342d3, 0xa62884aa), 0x00000000, 11, 0x8771f681) == 0x60127b2e
    ensures Mix(0xa62884aa, 0x60127b2e, H(0x60127b2e, 0xb3707ebf, 0x726342d3), 0x00000000, 16, 0x6d9d6122) == 0x8d212ff5
    ensures Mix(0x726342d3, 0x8d212ff5, H(0x8d212ff5, 0x60127b2e, 0xb3707ebf), 0x00000018, 23, 0xfde5380c) == 0x3b0875c7
    ensures Mix(0xb3707ebf, 0x3b0875c7, H(0x3b0875c7, 0x8d212ff5, 0x60127b2e), 0x00000000, 4, 0xa4beea44) == 0x21b117b9
    ensures Mix(0x60127b2e, 0x21b117b9, H(0x21b117b9, 0x3b0875c7, 0x8d212ff5), 0x00000000, 11, 0x4bdecfa9) == 0x6e7429d5
    ensures Mix(0x8d212ff5, 0x6e7429d5, H(0x6e7429d5, 0x21b117b9, 0x3b0875c7), 0x00000000, 16, 0xf6bb4b60) == 0x3575227e
    ensures Mix(0x3b0875c7, 0x3575227e, H(0x3575227e, 0x6e7429d5, 0x21b117b9), 0x00000000, 23, 0xbebfbc70) == 0x5a2f5ea5
    ensures Mix(0x21b117b9, 0x5a2f5ea5, H(0x5a2f5ea5, 0x3575227e, 0x6e7429d5), 0x00000000, 4, 0x289b7ec6) == 0x11de1779
    ensures Mix(0x6e7429d5, 0x11de1779, H(0x11de1779, 0x5a2f5ea5, 0x3575227e), 0x80636261, 11, 0xeaa127fa) == 0xfadcaa38
    ensures Mix(0x3575227e, 0xfadcaa38, H(0xfadcaa38, 0x11de1779, 0x5a2f5ea5), 0x00000000, 16, 0xd4ef3085) == 0x31c465ca
    ensures Mix(0x5a2f5ea5, 0x31c465ca, H(0x31c465ca, 0xfadcaa38, 0x11de1779), 0x00000000, 23, 0x04881d05) == 0x4c6124f4
    ensures Mix(0x11de1779, 0x4c6124f4, H(0x4c6124f4, 0x31c465ca, 0xfadcaa38), 0x00000000, 4, 0xd9d4d039) == 0x7f2e507b
    ensures Mix(0xfadcaa38, 0x7f2e507b, H(0x7f2e507b, 0x4c6124f4, 0x31c465ca), 0x00000000, 11, 0xe6db99e5) == 0x99d9679d
    ensures Mix(0x31c465ca, 0x99d9679d, H(0x99d9679d, 0x7f2e507b, 0x4c6124f4), 0x00000000, 16, 0x1fa27cf8) == 0x8fae6399
    ensures Mix(0x4c6124f4, 0x8fae6399, H(0x8fae6399, 0x99d9679d, 0x7f2e507b), 0x00000000, 23, 0xc4ac5665) == 0x7beb9700
  {
  }

  lemma Values4()
    ensures Mix(0x7f2e507b, 0x7beb9700, I(0x7beb9700, 0x8fae6399, 0x99d9679d), 0x80636261, 6, 0xf4292244) == 0x7b201df8
    ensures Mix(0x99d9679d, 0x7b201df8, I(0x7b201df8, 0x7beb9700, 0x8fae6399), 0x00000000, 10, 0x432aff97) == 0xf4e8e96e
    ensures Mix(0x8fae6399, 0xf4e8e96e, I(0xf4e8e96e, 0x7b201df8, 0x7beb9700), 0x00000018, 15, 0xab9423a7) == 0xb298cefd
    ensures Mix(0x7beb9700, 0xb298cefd, I(0xb298cefd, 0xf4e8e96e, 0x7b201df8), 0x00000000, 21, 0xfc93a039) == 0x8bf025c4
    ensures Mix(0x7b201df8, 0x8bf025c4, I(0x8bf025c4, 0xb298cefd, 0xf4e8e96e), 0x00000000, 6, 0x655b59c3) == 0x06cc5e8a
    ensures Mix(0xf4e8e96e, 0x06cc5e8a, I(0x06cc5e8a, 0x8bf025c4, 0xb298cefd), 0x00000000, 10, 0x8f0ccc92) == 0x5b0d97aa
    ensures Mix(0xb298cefd, 0x5b0d97aa, I(0x5b0d97aa, 0x06cc5e8a, 0x8bf025c4), 0x00000000, 15, 0xffeff47d) == 0x7d632dd0
    ensures Mix(0x8bf025c4, 0x7d632dd0, I(0x7d632dd0, 0x5b0d97aa, 0x06cc5e8a), 0x00000000, 21, 0x85845dd1) == 0x3bfa2c27
    ensures Mix(0x06cc5e8a, 0x3bfa2c27, I(0x3bfa2c27, 0x7d632dd0, 0x5b0d97aa), 0x00000000, 6, 0x6fa87e4f) == 0x7f81cc35
    ensures Mix(0x5b0d97aa, 0x7f81cc35, I(0x7f81cc35, 0x3bfa2c27, 0x7d632dd0), 0x00000000, 10, 0xfe2ce6e0) == 0x094454ab
    ensures Mix(0x7d632dd0, 0x094454ab, I(0x094454ab, 0x7f81cc35, 0x3bfa2c27), 0x00000000, 15, 0xa3014314) == 0x4f9dbe3f
    ensures Mix(0x3bfa2c27, 0x4f9dbe3f, I(0x4f9dbe3f, 0x094454ab, 0x7f81cc35), 0x00000000, 21, 0x4e0811a1) == 0x7327d604
    ensures Mix(0x7f81cc35, 0x7327d604, I(0x7327d604, 0x4f9dbe3f, 0x094454ab), 0x00000000, 6, 0xf7537e82) == 0x310ade8f
    ensures Mix(0x094454ab, 0x310ade8f, I(0x310ade8f, 0x7327d604, 0x4f9dbe3f), 0x00000000, 10, 0xbd3af235) == 0x624d8cb2
    ensures Mix(0x4f9dbe3f, 0x624d8cb2, I(0x624d8cb2, 0x310ade8f, 0x7327d604), 0x00000000, 15, 0x2ad7d2bb) == 0xe484b9d8
    ensures Mix(0x7327d604, 0xe484b9d8, I(0xe484b9d8, 0x624d8cb2, 0x310ade8f), 0x00000000, 21, 0xeb86d391) == 0xc08226b3
  {
  }

  lemma Constants1()
    ensures T(0) == 0xd76aa478 && T(1) == 0xe8c7b756 && T(2) == 0x242070db && T(3) == 0xc1bdceee
    ensures T(4) == 0xf57c0faf && T(5) == 0x4787c62a && T(6) == 0xa8304613 && T(7) == 0xfd469501
    ensures T(8) == 0x698098d8 && T(9) == 0x8b44f7af && T(10) == 0xffff5bb1 && T(11) == 0x895cd7be
    ensures T(12) == 0x6b901122 && T(13) == 0xfd987193 && T(14) == 0xa679438e && T(15) == 0x49b40821
  {
    hide Steps, Mix;
  }

  lemma Constants2()
    ensures T(16) == 0xf61e2562 && T(17) == 0xc040b340 && T(18) == 0x265e5a51 && T(19) == 0xe9b6c7aa
    ensures T(20) == 0xd62f105d && T(21) == 0x02441453 && T(22) == 0xd8a1e681 && T(23) == 0xe7d3fbc8
    ensures T(24) == 0x21e1cde6 && T(25) == 0xc33707d6 && T(26) == 0xf4d50d87 && T(27) == 0x455a14ed
    ensures T(28) == 0xa9e3e905 && T(29) == 0xfcefa3f8 && T(30) == 0x676f02d9 && T(31) == 0x8d2a4c8a
  {
    hide Steps, Mix;
  }

  lemma Constants3()
    ensures T(32) == 0xfffa3942 && T(33) == 0x8771f681 && T(34) == 0x6d9d6122 && T(35) == 0xfde5380c
    ensures T(36) == 0xa4beea44 && T(37) == 0x4bdecfa9 && T(38) == 0xf6bb4b60 && T(39) == 0xbebfbc70
    ensures T(40) == 0x289b7ec6 && T(41) == 0xeaa127fa && T(42) == 0xd4ef3085 && T(43) == 0x04881d05
    ensures T(44) == 0xd9d4d039 && T(45) == 0xe6db99e5 && T(46) == 0x1fa27cf8 && T(47) == 0xc4ac5665
  {
    hide Steps, Mix;
  }

  lemma Constants4()
    ensures T(48) == 0xf4292244 && T(49) == 0x432aff97 && T(50) == 0xab9423a7 && T(51) == 0xfc93a039
    ensures T(52) == 0x655b59c3 && T(53) == 0x8f0ccc92 && T(54) == 0xffeff47d && T(55) == 0x85845dd1
    ensures T(56) == 0x6fa87e4f && T(57) == 0xfe2ce6e0 && T(58) == 0xa3014314 && T(59) == 0x4e0811a1
    ensures T(60) == 0xf7537e82 && T(61) == 0xbd3af235 && T(62) == 0x2ad7d2bb && T(63) == 0xeb86d391
  {
    hide Steps, Mix;
  }

  /** Four steps of round 1, by their values. */
  lemma Quad1(n: nat, s: State, t: State)
    requires 0 <= n && n + 4 <= 16 && n % 4 == 0 && Steps(n, INITIAL, BLOCK) == s
    requires Mix(s.a, s.b, F(s.b, s.c, s.d), BLOCK[Index(n)], 7, T(n)) == t.a
    requires Mix(s.d, t.a, F(t.a, s.b, s.c), BLOCK[Index(n + 1)], 12, T(n + 1)) == t.d
    requires Mix(s.c, t.d, F(t.d, t.a, s.b), BLOCK[Index(n + 2)], 17, T(n + 2)) == t.c
    requires Mix(s.b, t.c, F(t.c, t.d, t.a), BLOCK[Index(n + 3)], 22, T(n + 3)) == t.b
    ensures Steps(n + 4, INITIAL, BLOCK) == t
  {
    hide Steps, Mix, Index, T, F, G, H, I;
    QuadOfRound1(n, INITIAL, BLOCK);
  }

  /** Four steps of round 2, by their values. */
  lemma Quad2(n: nat, s: State, t: State)
    requires 16 <= n && n + 4 <= 32 && n % 4 == 0 && Steps(n, INITIAL, BLOCK) == s
    requires Mix(s.a, s.b, G(s.b, s.c, s.d), BLOCK[Index(n)], 5, T(n)) == t.a
    requires Mix(s.d, t.a, G(t.a, s.b, s.c), BLOCK[Index(n + 1)], 9, T(n + 1)) == t.d
    requires Mix(s.c, t.d, G(t.d, t.a, s.b), BLOCK[Index(n + 2)], 14, T(n + 2)) == t.c
    requires Mix(s.b, t.c, G(t.c, t.d, t.a), BLOCK[Index(n + 3)], 20, T(n + 3)) == t.b
    ensures Steps(n + 4, INITIAL, BLOCK) == t
  {
    hide Steps, Mix, Index, T, F, G, H, I;
    QuadOfRound2(n, INITIAL, BLOCK);
  }

  /** Four steps of round 3, by their values. */
  lemma Quad3(n: nat, s: State, t: State)
    requires 32 <= n && n + 4 <= 48 && n % 4 == 0 && Steps(n, INITIAL, BLOCK) == s
    requires Mix(s.a, s.b, H(s.b, s.c, s.d), BLOCK[Index(n)], 4, T(n)) == t.a
    requires Mix(s.d, t.a, H(t.a, s.b, s.c), BLOCK[Index(n + 1)], 11, T(n + 1)) == t.d
    requires Mix(s.c, t.d, H(t.d, t.a, s.b), BLOCK[Index(n + 2)], 16, T(n + 2)) == t.c
    requires Mix(s.b, t.c, H(t.c, t.d, t.a), BLOCK[Index(n + 3)], 23, T(n + 3)) == t.b
    ensures Steps(n + 4, INITIAL, BLOCK) == t
  {
    hide Steps, Mix, Index, T, F, G, H, I;
    QuadOfRound3(n, INITIAL, BLOCK);
  }

  /** Four steps of round 4, by their values. */
  lemma Quad4(n: nat, s: State, t: State)
    requires 48 <= n && n + 4 <= 64 && n % 4 == 0 && Steps(n, INITIAL, BLOCK) == s
    requires Mix(s.a, s.b, I(s.b, s.c, s.d), BLOCK[Index(n)], 6, T(n)) == t.a
    requires Mix(s.d, t.a, I(t.a, s.b, s.c), BLOCK[Index(n + 1)], 10, T(n + 1)) == t.d
    requires Mix(s.c, t.d, I(t.d, t.a, s.b), BLOCK[Index(n + 2)], 15, T(n + 2)) == t.c
    requires Mix(s.b, t.c, I(t.c, t.d, t.a), BLOCK[Index(n + 3)], 21, T(n + 3)) == t.b
    ensures Steps(n + 4, INITIAL, BLOCK) == t
  {
    hide Steps, Mix, Index, T, F, G, H, I;
    QuadOfRound4(n, INITIAL, BLOCK);
  }

  lemma After4()
    ensures Steps(4, INITIAL, BLOCK) == State(0xd6d117b4, 0x7ad956f2, 0x2f6fbd72, 0x344a8432)
  {
    hide Steps, Mix, Index, T, F, G, H, I;
    StepsBegin();
    Values1();
    Constants1();
    WordsOfRound1();
    Quad1(0, State(0x67452301, 0xefcdab89, 0x98badcfe, 0x10325476), State(0xd6d117b4, 0x7ad956f2, 0x2f6fbd72, 0x344a8432));
  }

  lemma After8()
    ensures Steps(8, INITIAL, BLOCK) == State(0xc73741ef, 0x928d99f6, 0x207dc67b, 0x8bac3051)
  {
    hide Steps, Mix, Index, T, F, G, H, I;
    After4();
    Values1();
    Constants1();
    WordsOfRound1();
    Quad1(4, State(0xd6d117b4, 0x7ad956f2, 0x2f6fbd72, 0x344a8432), State(0xc73741ef, 0x928d99f6, 0x207dc67b, 0x8bac3051));
  }

  lemma After12()
    ensures Steps(12, INITIAL, BLOCK) == State(0x854b3712, 0x5ed49596, 0x3020401c, 0x74e2f284)
  {
    hide Steps, Mix, Index, T, F, G, H, I;
    After8();
    Values1();
    Constants1();
    WordsOfRound1();
    Quad1(8, State(0xc73741ef, 0x928d99f6, 0x207dc67b, 0x8bac3051), State(0x854b3712, 0x5ed49596, 0x3020401c, 0x74e2f284));
  }

  lemma After16()
    ensures Steps(16, INITIAL, BLOCK) == State(0xdda9b9a6, 0x72aff2e0, 0xe396856b, 0xa1051895)
  {
    hide Steps, Mix, Index, T, F, G, H, I;
    After12();
    Values1();
    Constants1();
    WordsOfRound1();
    Quad1(12, State(0x854b3712, 0x5ed49596, 0x3020401c, 0x74e2f284), State(0xdda9b9a6, 0x72aff2e0, 0xe396856b, 0xa1051895));
  }

  lemma After20()
    ensures Steps(20, INITIAL, BLOCK) == State(0x3e9e9126, 0xb5b204e4, 0xe25e1652, 0x4a1d804e)
  {
    hide Steps, Mix, Index, T, F, G, H, I;
    After16();
    Values2();
    Constants2();
    WordsOfRound2();
    Quad2(16, State(0xdda9b9a6, 0x72aff2e0, 0xe396856b, 0xa1051895), State(0x3e9e9126, 0xb5b204e4, 0xe25e1652, 0x4a1d804e));
  }

  lemma After24()
    ensures Steps(24, INITIAL, BLOCK) == State(0x59a8ffda, 0x47092c07, 0xabfc7920, 0x6d002f1e)
  {
    hide Steps, Mix, Index, T, F, G, H, I;
    After20();
    Values2();
    Constants2();
    WordsOfRound2();
    Quad2(20, State(0x3e9e9126, 0xb5b204e4, 0xe25e1652, 0x4a1d804e), State(0x59a8ffda, 0x47092c07, 0xabfc7920, 0x6d002f1e));
  }

  lemma After28()
    ensures Steps(28, INITIAL, BLOCK) == State(0xb7f268cf, 0x786acb8f, 0xfe1623b1, 0x09388eff)
  {
    hide Steps, Mix, Index, T, F, G, H, I;
    After24();
    Values2();
    Constants2();
    WordsOfRound2();
    Quad2(24, State(0x59a8ffda, 0x47092c07, 0xabfc7920, 0x6d002f1e), State(0xb7f268cf, 0x786acb8f, 0xfe1623b1, 0x09388eff));
  }

  lemma After32()
    ensures Steps(32, INITIAL, BLOCK) == State(0x790a77fb, 0x726342d3, 0xa62884aa, 0x9f47e4f8)
  {
    hide Steps, Mix, Index, T, F, G, H, I;
    After28();
    Values2();
    Constants2();
    WordsOfRound2();
    Quad2(28, State(0xb7f268cf, 0x786acb8f, 0xfe1623b1, 0x09388eff), State(0x790a77fb, 0x726342d3, 0xa62884aa, 0x9f47e4f8));
  }

  lemma After36()
    ensures Steps(36, INITIAL, BLOCK) == State(0xb3707ebf, 0x3b0875c7, 0x8d212ff5, 0x60127b2e)
  {
    hide Steps, Mix, Index, T, F, G, H, I;
    After32();
    Values3();
    Constants3();
    WordsOfRound3();
    Quad3(32, State(0x790a77fb, 0x726342d3, 0xa62884aa, 0x9f47e4f8), State(0xb3707ebf, 0x3b0875c7, 0x8d212ff5, 0x60127b2e));
  }

  lemma After40()
    ensures Steps(40, INITIAL, BLOCK) == State(0x21b117b9, 0x5a2f5ea5, 0x3575227e, 0x6e7429d5)
  {
    hide Steps, Mix, Index, T, F, G, H, I;
    After36();
    Values3();
    Constants3();
    WordsOfRound3();
    Quad3(36, State(0xb3707ebf, 0x3b0875c7, 0x8d212ff5, 0x60127b2e), State(0x21b117b9, 0x5a2f5ea5, 0x3575227e, 0x6e7429d5));
  }

  lemma After44()
    ensures Steps(44, INITIAL, BLOCK) == State(0x11de1779, 0x4c6124f4, 0x31c465ca, 0xfadcaa38)
  {
    hide Steps, Mix, Index, T, F, G, H, I;
    After40();
    Values3();
    Constants3();
    WordsOfRound3();
    Quad3(40, State(0x21b117b9, 0x5a2f5ea5, 0x3575227e, 0x6e7429d5), State(0x11de1779, 0x4c6124f4, 0x31c465ca, 0xfadcaa38));
  }

  lemma After48()
    ensures Steps(48, INITIAL, BLOCK) == State(0x7f2e507b, 0x7beb9700, 0x8fae6399, 0x99d9679d)
  {
    hide Steps, Mix, Index, T, F, G, H, I;
    After44();
    Values3();
    Constants3();
    WordsOfRound3();
    Quad3(44, State(0x11de1779, 0x4c6124f4, 0x31c465ca, 0xfadcaa38), State(0x7f2e507b, 0x7beb9700, 0x8fae6399, 0x99d9679d));
  }

  lemma After52()
    ensures Steps(52, INITIAL, BLOCK) == State(0x7b201df8, 0x8bf025c4, 0xb298cefd, 0xf4e8e96e)
  {
    hide Steps, Mix, Index, T, F, G, H, I;
    After48();
    Values4();
    Constants4();
    WordsOfRound4();
    Quad4(48, State(0x7f2e507b, 0x7beb9700, 0x8fae6399, 0x99d9679d), State(0x7b201df8, 0x8bf025c4, 0xb298cefd, 0xf4e8e96e));
  }

  lemma After56()
    ensures Steps(56, INITIAL, BLOCK) == State(0x06cc5e8a, 0x3bfa2c27, 0x7d632dd0, 0x5b0d97aa)
  {
    hide Steps, Mix, Index, T, F, G, H, I;
    After52();
    Values4();
    Constants4();
    WordsOfRound4();
    Quad4(52, State(0x7b201df8, 0x8bf025c4, 0xb298cefd, 0xf4e8e96e), State(0x06cc5e8a, 0x3bfa2c27, 0x7d632dd0, 0x5b0d97aa));
  }

  lemma After60()
    ensures Steps(60, INITIAL, BLOCK) == State(0x7f81cc35, 0x7327d604, 0x4f9dbe3f, 0x094454ab)
  {
    hide Steps, Mix, Index, T, F, G, H, I;
    After56();
    Values4();
    Constants4();
    WordsOfRound4();
    Quad4(56, State(0x06cc5e8a, 0x3bfa2c27, 0x7d632dd0, 0x5b0d97aa), State(0x7f81cc35, 0x7327d604, 0x4f9dbe3f, 0x094454ab));
  }

  lemma After64()
    ensures Steps(64, INITIAL, BLOCK) == State(0x310ade8f, 0xc08226b3, 0xe484b9d8, 0x624d8cb2)
  {
    hide Steps, Mix, Index, T, F, G, H, I;
    After60();
    Values4();
    Constants4();
    WordsOfRound4();
    Quad4(60, State(0x7f81cc35, 0x7327d604, 0x4f9dbe3f, 0x094454ab), State(0x310ade8f, 0xc08226b3, 0xe484b9d8, 0x624d8cb2));
  }

  lemma StepsBegin()
    ensures Steps(0, INITIAL, BLOCK) == INITIAL
  {
  }

  lemma Sums()
    ensures Add(INITIAL, State(0x310ade8f, 0xc08226b3, 0xe484b9d8, 0x624d8cb2))
         == State(0x98500190, 0xb04fd23c, 0x7d3f96d6, 0x727fe128)
  {
  }

  lemma DigestBytes()
    ensures BytesOf(0x98500190) == [0x90, 0x01, 0x50, 0x98]
    ensures BytesOf(0xb04fd23c) == [0x3c, 0xd2, 0x4f, 0xb0]
    ensures BytesOf(0x7d3f96d6) == [0xd6, 0x96, 0x3f, 0x7d]
    ensures BytesOf(0x727fe128) == [0x28, 0xe1, 0x7f, 0x72]
  {
  }

  lemma LastBytes()
    ensures BytesOf(24) == [24, 0, 0, 0] && BytesOf(0) == [0, 0, 0, 0]
  {
  }

  lemma LengthOfAbc()
    ensures LengthWords(3) == [24, 0]
  {
    hide LengthWords;
    LengthIsCount(3, 24, 0);
  }

  lemma BlockWords()
    ensures LittleEndian(0x61, 0x62, 0x63, 0x80) == 0x80636261 && LittleEndian(24, 0, 0, 0) == 24 && LittleEndian(0, 0, 0, 0) == 0
  {
  }

  lemma TwoWords(x: seq<Word>)
    requires |x| == 2
    ensures Output(x) == BytesOf(x[0]) + BytesOf(x[1])
  {
    hide BytesOf;
    assert x[1..] == [x[1]] && x[1..][1..] == [];
    assert Output(x[1..]) == BytesOf(x[1]) + [] == BytesOf(x[1]);
  }

  lemma FourWords(x: seq<Word>)
    requires |x| == 4
    ensures Output(x) == BytesOf(x[0]) + (BytesOf(x[1]) + (BytesOf(x[2]) + BytesOf(x[3])))
  {
    hide BytesOf, Output;
    OutputStep(x, 0);
    OutputStep(x, 1);
    assert x[0..] == x && x[2..] == [x[2], x[3]];
    TwoWords(x[2..]);
  }

  lemma PaddedBlock()
    ensures |Padded(ABC)| == 64 && WordsOf(Padded(ABC)) == BLOCK
  {
    hide BytesOf, LittleEndian, Output, LengthWords;
    LastBytes();
    LengthOfAbc();
    BlockWords();
    TwoWords(LengthWords(3));
    var p := Padded(ABC);
    assert p == ABC + ([0x80] + Zeros(52)) + ([24, 0, 0, 0] + [0, 0, 0, 0]);
    forall i | 0 <= i < 16
      ensures WordsOf(p)[i] == BLOCK[i]
    {
      assert WordsOf(p)[i] == WordAt(p, 4 * i);
    }
  }

  /** The registers at the end; the first one is what hashkit_md5 returns. */
  lemma RegistersOfAbc()
    ensures Chain(INITIAL, Padded(ABC)) == State(0x98500190, 0xb04fd23c, 0x7d3f96d6, 0x727fe128)
  {
    hide Steps, Add, Padded, WordsOf;
    PaddedBlock();
    After64();
    Sums();
    var p := Padded(ABC);
    ChainStep(INITIAL, p, []);
    assert p + [] == p;
    assert Chain(INITIAL, p) == Compress(INITIAL, p);
  }

  /** MD5 ("abc") = 900150983cd24fb0d6963f7d28e17f72 */
  lemma DigestOfAbc()
    ensures Digest(ABC) == [0x90, 0x01, 0x50, 0x98, 0x3c, 0xd2, 0x4f, 0xb0, 0xd6, 0x96, 0x3f, 0x7d, 0x28, 0xe1, 0x7f, 0x72]
  {
    hide Chain, BytesOf, Output, Padded;
    RegistersOfAbc();
    var s := Chain(INITIAL, Padded(ABC));
    FourWords([s.a, s.b, s.c, s.d]);
    DigestBytes();
  }
}
