/** Digests of known messages, computed from the definition round by round; where the constants come from. */
module Blake2bVectors {
  import opened Blake2bSpec

  // ---------- a round, quad by quad ----------

  /** Four indices of the work vector. */
  datatype Place = Place(a: nat, b: nat, c: nat, d: nat)

  predicate Fits(p: Place) {
    && p.a < 16 && p.b < 16 && p.c < 16 && p.d < 16
    && p.a != p.b && p.a != p.c && p.a != p.d && p.b != p.c && p.b != p.d && p.c != p.d
  }

  predicate Apart(p: Place, q: Place) { {p.a, p.b, p.c, p.d} !! {q.a, q.b, q.c, q.d} }

  function At(v: seq<Word>, p: Place): Quad
    requires |v| == 16 && Fits(p)
  {
    Quad(v[p.a], v[p.b], v[p.c], v[p.d])
  }

  function MixAt(v: seq<Word>, p: Place, x: Word, y: Word): (r: seq<Word>)
    requires |v| == 16 && Fits(p)
    ensures |r| == 16
  {
    G(v, p.a, p.b, p.c, p.d, x, y)
  }

  lemma MixedAt(v: seq<Word>, p: Place, x: Word, y: Word)
    requires |v| == 16 && Fits(p)
    ensures At(MixAt(v, p, x, y), p) == MixQuad(At(v, p), x, y)
  {
    hide MixQuad;
  }

  lemma KeptAt(v: seq<Word>, p: Place, x: Word, y: Word, q: Place)
    requires |v| == 16 && Fits(p) && Fits(q) && Apart(p, q)
    ensures At(MixAt(v, p, x, y), q) == At(v, q)
  {
    hide MixQuad;
    var places := {p.a, p.b, p.c, p.d};
    assert q.a !in places && q.b !in places && q.c !in places && q.d !in places;
  }

  /** Quads apart from each other are mixed as if each were alone. */
  lemma FourMixed(v: seq<Word>, p: Place, q: Place, r: Place, s: Place, x: seq<Word>)
    requires |v| == 16 && |x| == 8 && Fits(p) && Fits(q) && Fits(r) && Fits(s)
    requires Apart(p, q) && Apart(p, r) && Apart(p, s) && Apart(q, r) && Apart(q, s) && Apart(r, s)
    ensures
      var w := MixAt(MixAt(MixAt(MixAt(v, p, x[0], x[1]), q, x[2], x[3]), r, x[4], x[5]), s, x[6], x[7]);
      && At(w, p) == MixQuad(At(v, p), x[0], x[1]) && At(w, q) == MixQuad(At(v, q), x[2], x[3])
      && At(w, r) == MixQuad(At(v, r), x[4], x[5]) && At(w, s) == MixQuad(At(v, s), x[6], x[7])
  {
    hide MixQuad, At, MixAt, Fits;
    MixedAt(v, p, x[0], x[1]);
    KeptAt(v, p, x[0], x[1], q); KeptAt(v, p, x[0], x[1], r); KeptAt(v, p, x[0], x[1], s);
    var v1 := MixAt(v, p, x[0], x[1]);
    MixedAt(v1, q, x[2], x[3]);
    KeptAt(v1, q, x[2], x[3], p); KeptAt(v1, q, x[2], x[3], r); KeptAt(v1, q, x[2], x[3], s);
    var v2 := MixAt(v1, q, x[2], x[3]);
    MixedAt(v2, r, x[4], x[5]);
    KeptAt(v2, r, x[4], x[5], p); KeptAt(v2, r, x[4], x[5], q); KeptAt(v2, r, x[4], x[5], s);
    var v3 := MixAt(v2, r, x[4], x[5]);
    MixedAt(v3, s, x[6], x[7]);
    KeptAt(v3, s, x[6], x[7], p); KeptAt(v3, s, x[6], x[7], q); KeptAt(v3, s, x[6], x[7], r);
  }

  lemma ColumnsAreMixed(v: seq<Word>, m: seq<Word>, s: seq<Index>)
    requires |v| == 16 && |m| == 16 && |s| == 16
    ensures
      var w := Columns(v, m, s);
      && At(w, Place(0, 4, 8, 12)) == MixQuad(At(v, Place(0, 4, 8, 12)), m[s[0]], m[s[1]])
      && At(w, Place(1, 5, 9, 13)) == MixQuad(At(v, Place(1, 5, 9, 13)), m[s[2]], m[s[3]])
      && At(w, Place(2, 6, 10, 14)) == MixQuad(At(v, Place(2, 6, 10, 14)), m[s[4]], m[s[5]])
      && At(w, Place(3, 7, 11, 15)) == MixQuad(At(v, Place(3, 7, 11, 15)), m[s[6]], m[s[7]])
  {
    hide MixQuad, At, G;
    FourMixed(v, Place(0, 4, 8, 12), Place(1, 5, 9, 13), Place(2, 6, 10, 14), Place(3, 7, 11, 15),
              [m[s[0]], m[s[1]], m[s[2]], m[s[3]], m[s[4]], m[s[5]], m[s[6]], m[s[7]]]);
  }

  lemma DiagonalsAreMixed(v: seq<Word>, m: seq<Word>, s: seq<Index>)
    requires |v| == 16 && |m| == 16 && |s| == 16
    ensures
      var w := Diagonals(v, m, s);
      && At(w, Place(0, 5, 10, 15)) == MixQuad(At(v, Place(0, 5, 10, 15)), m[s[8]], m[s[9]])
      && At(w, Place(1, 6, 11, 12)) == MixQuad(At(v, Place(1, 6, 11, 12)), m[s[10]], m[s[11]])
      && At(w, Place(2, 7, 8, 13)) == MixQuad(At(v, Place(2, 7, 8, 13)), m[s[12]], m[s[13]])
      && At(w, Place(3, 4, 9, 14)) == MixQuad(At(v, Place(3, 4, 9, 14)), m[s[14]], m[s[15]])
  {
    hide MixQuad, At, G;
    FourMixed(v, Place(0, 5, 10, 15), Place(1, 6, 11, 12), Place(2, 7, 8, 13), Place(3, 4, 9, 14),
              [m[s[8]], m[s[9]], m[s[10]], m[s[11]], m[s[12]], m[s[13]], m[s[14]], m[s[15]]]);
  }

  datatype Four = Four(q0: Quad, q1: Quad, q2: Quad, q3: Quad)

  /** The columns after the first half of a round. */
  function ColumnQuads(v: seq<Word>, m: seq<Word>, s: seq<Index>): Four
    requires |v| == 16 && |m| == 16 && |s| == 16
  {
    Four(MixQuad(Quad(v[0], v[4], v[8], v[12]), m[s[0]], m[s[1]]),
         MixQuad(Quad(v[1], v[5], v[9], v[13]), m[s[2]], m[s[3]]),
         MixQuad(Quad(v[2], v[6], v[10], v[14]), m[s[4]], m[s[5]]),
         MixQuad(Quad(v[3], v[7], v[11], v[15]), m[s[6]], m[s[7]]))
  }

  /** The diagonals after the second half, from the columns before it. */
  function DiagonalQuads(c: Four, m: seq<Word>, s: seq<Index>): Four
    requires |m| == 16 && |s| == 16
  {
    Four(MixQuad(Quad(c.q0.a, c.q1.b, c.q2.c, c.q3.d), m[s[8]], m[s[9]]),
         MixQuad(Quad(c.q1.a, c.q2.b, c.q3.c, c.q0.d), m[s[10]], m[s[11]]),
         MixQuad(Quad(c.q2.a, c.q3.b, c.q0.c, c.q1.d), m[s[12]], m[s[13]]),
         MixQuad(Quad(c.q3.a, c.q0.b, c.q1.c, c.q2.d), m[s[14]], m[s[15]]))
  }

  /** The work vector with these diagonals. */
  function FromDiagonals(d: Four): (v: seq<Word>)
    ensures |v| == 16
  {
    [d.q0.a, d.q1.a, d.q2.a, d.q3.a, d.q3.b, d.q0.b, d.q1.b, d.q2.b,
     d.q2.c, d.q3.c, d.q0.c, d.q1.c, d.q1.d, d.q2.d, d.q3.d, d.q0.d]
  }

  function ColumnsOf(v: seq<Word>): Four
    requires |v| == 16
  {
    Four(At(v, Place(0, 4, 8, 12)), At(v, Place(1, 5, 9, 13)), At(v, Place(2, 6, 10, 14)), At(v, Place(3, 7, 11, 15)))
  }

  function DiagonalsOf(v: seq<Word>): Four
    requires |v| == 16
  {
    Four(At(v, Place(0, 5, 10, 15)), At(v, Place(1, 6, 11, 12)), At(v, Place(2, 7, 8, 13)), At(v, Place(3, 4, 9, 14)))
  }

  lemma DiagonalsDetermine(v: seq<Word>)
    requires |v| == 16
    ensures v == FromDiagonals(DiagonalsOf(v))
  {
  }

  lemma ColumnStep(v: seq<Word>, m: seq<Word>, s: seq<Index>)
    requires |v| == 16 && |m| == 16 && |s| == 16
    ensures ColumnsOf(Columns(v, m, s)) == ColumnQuads(v, m, s)
  {
    hide MixQuad, Columns;
    ColumnsAreMixed(v, m, s);
  }

  lemma DiagonalStep(v: seq<Word>, m: seq<Word>, s: seq<Index>)
    requires |v| == 16 && |m| == 16 && |s| == 16
    ensures DiagonalsOf(Diagonals(v, m, s)) == DiagonalQuads(ColumnsOf(v), m, s)
  {
    hide MixQuad, Diagonals;
    DiagonalsAreMixed(v, m, s);
  }

  /** One round, first the columns and then the diagonals of the work vector. */
  lemma NextRound(v: seq<Word>, m: seq<Word>, s: seq<Index>)
    requires |v| == 16 && |m| == 16 && |s| == 16
    ensures Diagonals(Columns(v, m, s), m, s) == FromDiagonals(DiagonalQuads(ColumnQuads(v, m, s), m, s))
  {
    hide Columns, Diagonals, ColumnQuads, DiagonalQuads, FromDiagonals, ColumnsOf, DiagonalsOf;
    ColumnStep(v, m, s);
    DiagonalStep(Columns(v, m, s), m, s);
    DiagonalsDetermine(Diagonals(Columns(v, m, s), m, s));
  }

  lemma FoldedAt(h: seq<Word>, v: seq<Word>, i: nat)
    requires |h| == 8 && |v| == 16 && i < 8
    ensures FoldIn(h, v)[i] == Xor(Xor(h[i], v[i]), v[i + 8])
  {
    hide Xor;
  }

  lemma FoldedWords(h: seq<Word>, v: seq<Word>)
    requires |h| == 8 && |v| == 16
    ensures FoldIn(h, v) == [
      Xor(Xor(h[0], v[0]), v[8]), Xor(Xor(h[1], v[1]), v[9]),
      Xor(Xor(h[2], v[2]), v[10]), Xor(Xor(h[3], v[3]), v[11]),
      Xor(Xor(h[4], v[4]), v[12]), Xor(Xor(h[5], v[5]), v[13]),
      Xor(Xor(h[6], v[6]), v[14]), Xor(Xor(h[7], v[7]), v[15])]
  {
    hide Xor, FoldIn;
    FoldedAt(h, v, 0); FoldedAt(h, v, 1); FoldedAt(h, v, 2); FoldedAt(h, v, 3);
    FoldedAt(h, v, 4); FoldedAt(h, v, 5); FoldedAt(h, v, 6); FoldedAt(h, v, 7);
  }

  /** The bytes of a word in this order. */
  predicate Spells(w: Word, row: seq<Byte>) {
    && |row| == 8
    && WordByte(w, 0) == row[0] && WordByte(w, 1) == row[1] && WordByte(w, 2) == row[2] && WordByte(w, 3) == row[3]
    && WordByte(w, 4) == row[4] && WordByte(w, 5) == row[5] && WordByte(w, 6) == row[6] && WordByte(w, 7) == row[7]
  }

  predicate SpellsOut(h: seq<Word>, rows: seq<seq<Byte>>) {
    && |h| == 8 && |rows| == 8
    && Spells(h[0], rows[0]) && Spells(h[1], rows[1]) && Spells(h[2], rows[2]) && Spells(h[3], rows[3])
    && Spells(h[4], rows[4]) && Spells(h[5], rows[5]) && Spells(h[6], rows[6]) && Spells(h[7], rows[7])
  }

  // ---------- the message "abc": section A of RFC 7693 ----------

  const ABC_STATE: seq<Word> := [
    0x6a09e667f2bdc948, 0xbb67ae8584caa73b, 0x3c6ef372fe94f82b, 0xa54ff53a5f1d36f1,
    0x510e527fade682d1, 0x9b05688c2b3e6c1f, 0x1f83d9abfb41bd6b, 0x5be0cd19137e2179]

  const ABC_WORDS: seq<Word> := [
    0x0000000000636261, 0x0000000000000000, 0x0000000000000000, 0x0000000000000000,
    0x0000000000000000, 0x0000000000000000, 0x0000000000000000, 0x0000000000000000,
    0x0000000000000000, 0x0000000000000000, 0x0000000000000000, 0x0000000000000000,
    0x0000000000000000, 0x0000000000000000, 0x0000000000000000, 0x0000000000000000]

  function AbcRounds(n: nat): (v: seq<Word>)
    ensures |v| == 16
  {
    Rounds(WorkVector(ABC_STATE, 3, true), ABC_WORDS, n)
  }

  lemma AbcStart()
    ensures AbcRounds(0) == [
      0x6a09e667f2bdc948, 0xbb67ae8584caa73b, 0x3c6ef372fe94f82b, 0xa54ff53a5f1d36f1,
      0x510e527fade682d1, 0x9b05688c2b3e6c1f, 0x1f83d9abfb41bd6b, 0x5be0cd19137e2179,
      0x6a09e667f3bcc908, 0xbb67ae8584caa73b, 0x3c6ef372fe94f82b, 0xa54ff53a5f1d36f1,
      0x510e527fade682d2, 0x9b05688c2b3e6c1f, 0xe07c265404be4294, 0x5be0cd19137e2179]
  {
  }

  lemma AbcRound1()
    ensures AbcRounds(1) == [
      0x86b7c1568029bb79, 0xc12cbcc809ff59f3, 0xc6a5214cc0eaca8e, 0x0c87cd524c14cc5d,
      0x44ee6039bd86a9f7, 0xa447c850aa694a7e, 0xde080f1bb1c0f84b, 0x595cb8a9a1aca66c,
      0xbec3ae837eac4887, 0x6267fc79df9d6ad1, 0xfa87b01273fa6dbe, 0x521a715c63e08d8a,
      0xe02d0975b8d37a83, 0x1c7b754f08b7d193, 0x8f885a76b6e578fe, 0x2318a24e2140fc64]
  {
    AbcStart();
    NextRound(AbcRounds(0), ABC_WORDS, Sigma(0));
  }

  lemma AbcRound2()
    ensures AbcRounds(2) == [
      0x53281e83806010f2, 0x3594b403f81b4393, 0x8cd63c7462de0dff, 0x85f693f3da53f974,
      0xbaabdbb2f386d9ae, 0xca5425aec65a10a8, 0xc6a22e2ff0f7aa48, 0xc6a56a51cb89c595,
      0x224e6a3369224f96, 0x500e125e58a92923, 0xe9e4ad0d0e1a0d48, 0x85df9dc143c59a74,
      0x92a3aaaa6d952b7f, 0xc5fdf71090fae853, 0x2a8a40f15a462dd0, 0x572d17effdd37358]
  {
    AbcRound1();
    NextRound(AbcRounds(1), ABC_WORDS, Sigma(1));
  }

  lemma AbcRound3()
    ensures AbcRounds(3) == [
      0x60ed96aa7ad41725, 0xe46a743c71800b9d, 0x1a04b543a01f156b, 0xa2f8716e775c4877,
      0xda0a61bcde4267ea, 0xb1dd230754d7bdee, 0x25a1422779e06d14, 0xe6823ae4c3ff58a5,
      0xa1677e19f37fd5da, 0x22bdce6976b08c51, 0xf1de8696bec11bf1, 0xa0ebd586a4a1d2c8,
      0xc804ebab11c99fa9, 0x8e0cec959c715793, 0x7c45557fae0d4d89, 0x716343f52fdd265e]
  {
    AbcRound2();
    NextRound(AbcRounds(2), ABC_WORDS, Sigma(2));
  }

  lemma AbcRound4()
    ensures AbcRounds(4) == [
      0xbb2a77d3a8382351, 0x45eb47971f23b103, 0x98be297f6e45c684, 0xa36077dee3370b89,
      0x8a03c4cb7e97590a, 0x24192e49ebf54ea0, 0x4f82c9401cb32d7a, 0x8ccd013726420dc4,
      0xa9c9a8f17b1fc614, 0x55908187977514a0, 0x5b44273e66b19d27, 0xb6d5c9fca2579327,
      0x086092cfb858437e, 0x5c4be2156dbeecf9, 0x2efede99ed4eff16, 0x3e7b5f234cd1f804]
  {
    AbcRound3();
    NextRound(AbcRounds(3), ABC_WORDS, Sigma(3));
  }

  lemma AbcRound5()
    ensures AbcRounds(5) == [
      0xc79c15b3d423b099, 0x2da2224e8da97556, 0x77d2b26df1c45c55, 0x8934eb09a3456052,
      0x0f6d9eeed157da2a, 0x6fe66467af88c0a9, 0x4eb0b76284c7aafb, 0x299c8e725d954697,
      0xb2240b59e6d567d3, 0x2643c2370e49ebfd, 0x79e02eef20cdb1ae, 0x64b3eed7bb602f39,
      0xb97d2d439e4df63d, 0xc718e755294c9111, 0x1f0893f2772bb373, 0x1205ea4a7859807d]
  {
    AbcRound4();
    NextRound(AbcRounds(4), ABC_WORDS, Sigma(4));
  }

  lemma AbcRound6()
    ensures AbcRounds(6) == [
      0xe58f97d6385baee4, 0x7640aa9764da137a, 0xdeb4c7c23efe287e, 0x70f6f41c8783c9f6,
      0x7127cd48c76a7708, 0x9e472af0be3db3f6, 0x0f244c62ddf71788, 0x219828aa83880842,
      0x41cca9073c8c4d0d, 0x5c7912bc10df3b4b, 0xa2c3abbd37510ee2, 0xcb5668cc2a9f7859,
      0x8733794f07ac1500, 0xc67a6be42335aa6f, 0xacb22b28681e4c82, 0xdb2161604cbc9828]
  {
    AbcRound5();
    NextRound(AbcRounds(5), ABC_WORDS, Sigma(5));
  }

  lemma AbcRound7()
    ensures AbcRounds(7) == [
      0x6e2d286eeadedc81, 0xbcf02c0787e86358, 0x57d56a56dd015edf, 0x55d899d40a5d0d0a,
      0x819415b56220c459, 0xb63c479a6a769f02, 0x258e55e0ec1f362a, 0x3a3b4ec60e19dfdc,
      0x04d769b3fcb048db, 0xb78a9a33e9bff4dd, 0x5777272ae1e930c0, 0x5a387849e578dbf6,
      0x92aac307cf2c0afc, 0x30aaccc4f06dafaa, 0x483893cc094f8863, 0xe03c6cc89c26bf92]
  {
    AbcRound6();
    NextRound(AbcRounds(6), ABC_WORDS, Sigma(6));
  }

  lemma AbcRound8()
    ensures AbcRounds(8) == [
      0xffc83ece76024d01, 0x1be7bffb8c5cc5f9, 0xa35a18cbac4c65b7, 0xb7c2c7e6d88c285f,
      0x81937da314a50838, 0xe1179523a2541963, 0x3a1fad7106232b8f, 0x1c7ede92ab8b9c46,
      0xa3c2d35e4f685c10, 0xa53d3f73aa619624, 0x30bbcc0285a22f65, 0xbcefbb6a81539e5d,
      0x3841def6f4c9848a, 0x98662c85fba726d4, 0x7762439bd5a851bd, 0xb0b9f0d443d1a889]
  {
    AbcRound7();
    NextRound(AbcRounds(7), ABC_WORDS, Sigma(7));
  }

  lemma AbcRound9()
    ensures AbcRounds(9) == [
      0x753a70a1e8faeadd, 0x6b0d43ca2c25d629, 0xf8343ba8b94f8c0b, 0xbc7d062b0db5cf35,
      0x58540ee1b1aebc47, 0x63c5b9b80d294cb9, 0x490870ecad27debd, 0xb2a90ddf667287fe,
      0x316cc9ebeefad8fc, 0x4a466bcd021526a4, 0x5da7f7638cec5669, 0xd9c8826727d306fc,
      0x88ed6c4f3bd7a537, 0x19ae688ddf67f026, 0x4d8707aab40f7e6d, 0xfd3f572687fea4f1]
  {
    AbcRound8();
    NextRound(AbcRounds(8), ABC_WORDS, Sigma(8));
  }

  lemma AbcRound10()
    ensures AbcRounds(10) == [
      0xe630c747ccd59c4f, 0xbc713d41127571ca, 0x46db183025025078, 0x6727e81260610140,
      0x2d04185eac2a8cba, 0x5f311b88904056ec, 0x40bd313009201aab, 0x0099d4f82a2a1eab,
      0x6dd4fbc1de60165d, 0xb3b0b51de3c86270, 0x900aee2f233b08e5, 0xa07199d87ad058d8,
      0x2c6b25593d717852, 0x37e8ca471beaa5f8, 0x2cfc1bac10ef4457, 0x01369ec18746e775]
  {
    AbcRound9();
    NextRound(AbcRounds(9), ABC_WORDS, Sigma(9));
  }

  lemma AbcRound11()
    ensures AbcRounds(11) == [
      0xe801f73b9768c760, 0x35c6d22320be511d, 0x306f27584f65495e, 0xb51776adf569a77b,
      0xf4f1be86690b3c34, 0x3cc88735d1475e4b, 0x5dac67921ff76949, 0x1cdb9d31ad70cc4e,
      0x35ba354a9c7df448, 0x4929cbe45679d73e, 0x733d1a17248f39db, 0x92d57b736f5f170a,
      0x61b5c0a41d491399, 0xb5c333457e12844a, 0xbd696be010d0d889, 0x02231e1a917fe0bd]
  {
    AbcRound10();
    NextRound(AbcRounds(10), ABC_WORDS, Sigma(0));
  }

  lemma AbcRound12()
    ensures AbcRounds(12) == [
      0x12ef8a641ec4f6d6, 0xbced5de977c9faf5, 0x733ca476c5148639, 0x97df596b0610f6fc,
      0xf42c16519ad5afa7, 0xaa5ac1888e10467e, 0x217d930aa51787f3, 0x906a6ff19e573942,
      0x75ab709bd3dcbf24, 0xee7ce1f345947aa4, 0xf8960d6c2faf5f5e, 0xe332538a36b6d246,
      0x885bef040ef6aa0b, 0xa4939a417bfb78a3, 0x646cbb7af6dce980, 0xe813a23c60af3b82]
  {
    AbcRound11();
    NextRound(AbcRounds(11), ABC_WORDS, Sigma(1));
  }

  lemma AbcFolded()
    ensures FoldIn(ABC_STATE, AbcRounds(12)) == [
      0x0d4d1c983fa580ba, 0xe9f6129fb697276a, 0xb7c45a68142f214c, 0xd1a2ffdb6fbb124b,
      0x2d79ab2a39c5877d, 0x95cc3345ded552c2, 0x5a92f1dba88ad318, 0x239900d4ed8623b9]
  {
    hide AbcRounds, Rounds, FoldIn;
    AbcRound12();
    FoldedWords(ABC_STATE, AbcRounds(12));
  }

  const ABC_DIGEST: seq<seq<Byte>> := [
    [0xba, 0x80, 0xa5, 0x3f, 0x98, 0x1c, 0x4d, 0x0d],
    [0x6a, 0x27, 0x97, 0xb6, 0x9f, 0x12, 0xf6, 0xe9],
    [0x4c, 0x21, 0x2f, 0x14, 0x68, 0x5a, 0xc4, 0xb7],
    [0x4b, 0x12, 0xbb, 0x6f, 0xdb, 0xff, 0xa2, 0xd1],
    [0x7d, 0x87, 0xc5, 0x39, 0x2a, 0xab, 0x79, 0x2d],
    [0xc2, 0x52, 0xd5, 0xde, 0x45, 0x33, 0xcc, 0x95],
    [0x18, 0xd3, 0x8a, 0xa8, 0xdb, 0xf1, 0x92, 0x5a],
    [0xb9, 0x23, 0x86, 0xed, 0xd4, 0x00, 0x99, 0x23]]

  lemma AbcBytes()
    ensures SpellsOut(FoldIn(ABC_STATE, AbcRounds(12)), ABC_DIGEST)
  {
    hide FoldIn, AbcRounds, Rounds;
    AbcFolded();
  }

  // ---------- the first block of the bytes 0 to 254, which fills all words of the message ----------

  const FIRST_STATE: seq<Word> := [
    0x6a09e667f2bdc948, 0xbb67ae8584caa73b, 0x3c6ef372fe94f82b, 0xa54ff53a5f1d36f1,
    0x510e527fade682d1, 0x9b05688c2b3e6c1f, 0x1f83d9abfb41bd6b, 0x5be0cd19137e2179]

  const FIRST_WORDS: seq<Word> := [
    0x0706050403020100, 0x0f0e0d0c0b0a0908, 0x1716151413121110, 0x1f1e1d1c1b1a1918,
    0x2726252423222120, 0x2f2e2d2c2b2a2928, 0x3736353433323130, 0x3f3e3d3c3b3a3938,
    0x4746454443424140, 0x4f4e4d4c4b4a4948, 0x5756555453525150, 0x5f5e5d5c5b5a5958,
    0x6766656463626160, 0x6f6e6d6c6b6a6968, 0x7776757473727170, 0x7f7e7d7c7b7a7978]

  function FirstRounds(n: nat): (v: seq<Word>)
    ensures |v| == 16
  {
    Rounds(WorkVector(FIRST_STATE, 128, false), FIRST_WORDS, n)
  }

  lemma FirstStart()
    ensures FirstRounds(0) == [
      0x6a09e667f2bdc948, 0xbb67ae8584caa73b, 0x3c6ef372fe94f82b, 0xa54ff53a5f1d36f1,
      0x510e527fade682d1, 0x9b05688c2b3e6c1f, 0x1f83d9abfb41bd6b, 0x5be0cd19137e2179,
      0x6a09e667f3bcc908, 0xbb67ae8584caa73b, 0x3c6ef372fe94f82b, 0xa54ff53a5f1d36f1,
      0x510e527fade68251, 0x9b05688c2b3e6c1f, 0x1f83d9abfb41bd6b, 0x5be0cd19137e2179]
  {
  }

  lemma FirstRound1()
    ensures FirstRounds(1) == [
      0x6d7f456e820314e8, 0xdf1638051d4399e9, 0x7980e4aa5c125589, 0x909f69b0264b578b,
      0xdcf62aab0bb2de7a, 0xe35107222fc8ce39, 0xb6d6f7d2cb81597b, 0xd4dc100ccad30dec,
      0x1cc685632f34d2f8, 0x1dfb95a1b88797dc, 0x154cbbaff606375d, 0xf900f25eeb40c699,
      0x3bbebb168ee00ad7, 0xaf5dd3c5edec3f00, 0xf8ed0199e3b06b3d, 0x494ebb8199ed4672]
  {
    FirstStart();
    NextRound(FirstRounds(0), FIRST_WORDS, Sigma(0));
  }

  lemma FirstRound2()
    ensures FirstRounds(2) == [
      0xfbe126a23df6cd4e, 0xb9b6984f79435ad2, 0x8b1045996f7d8533, 0x2fd5dec33218aa4a,
      0x6f4b87d69c2d1770, 0xb486c04f89c46733, 0x17d1d5a26bcae4cc, 0x1c4419948c7ca8e1,
      0x52478025dbb7cc59, 0xf4979767c72b99ea, 0xbf41f8be7374350d, 0x9968608f850b6f68,
      0x7ff447a283fa4f80, 0xa2c8570312263bcd, 0x99164c337c7932b7, 0x67c1987a94794e77]
  {
    FirstRound1();
    NextRound(FirstRounds(1), FIRST_WORDS, Sigma(1));
  }

  lemma FirstRound3()
    ensures FirstRounds(3) == [
      0xeb36ac07b95fa83d, 0x5372c61571742438, 0xa2f6f6b1d704c3fd, 0x530cde25a292e1bf,
      0xf8d3e0924429eac2, 0xc16a34cc93674bce, 0x3ac178591dbacc60, 0xe00a3a916425edad,
      0x5543481c06508a65, 0x6bd4c2c2f32fc707, 0x84e18ff8e38e900a, 0xd2fda5d34088cdc6,
      0xcfbdbc88cd4e98ff, 0x136f3105714454ba, 0x87c55d03aece23ec, 0xf24328ce40cbfd52]
  {
    FirstRound2();
    NextRound(FirstRounds(2), FIRST_WORDS, Sigma(2));
  }

  lemma FirstRound4()
    ensures FirstRounds(4) == [
      0x6a0b84796ab63c5e, 0xf262a4266effd6e3, 0x11a632cf0abd13f6, 0x09b34b0b95a24eb5,
      0x82a8e41392fea302, 0xb88adb19dc870398, 0xb5a04dd7faf232d2, 0x14174c80ede9d498,
      0xa59e2e918110e412, 0x0cb1894d659e949a, 0xc6ca3badad01d128, 0xe6090e26ea2d555c,
      0xdbc7ba27f60749a4, 0x3e1032f301574aea, 0xf7ba16a0022cb689, 0x4309b241efc23ed6]
  {
    FirstRound3();
    NextRound(FirstRounds(3), FIRST_WORDS, Sigma(3));
  }

  lemma FirstRound5()
    ensures FirstRounds(5) == [
      0xd1c7372603773044, 0x3b659eef58240bc6, 0x0cc29311f6be13f6, 0xe9c6bd8ce8e6520f,
      0x18e831180bbd5117, 0x45bef1a9cf60cfee, 0x7b6377aedefb6641, 0x33e6f6a6a99c3611,
      0x33ceb005a9f9cd42, 0xbb9e66d78388beac, 0xcface4a53e603b38, 0x4143514dfd473c0c,
      0x9591f52de87c3774, 0xa0ec792c4582b86f, 0x86cfb38112de8bb4, 0x30f64a784f0f6871]
  {
    FirstRound4();
    NextRound(FirstRounds(4), FIRST_WORDS, Sigma(4));
  }

  lemma FirstRound6()
    ensures FirstRounds(6) == [
      0x68474682d8b359f7, 0x8a7700faf008e44d, 0x8ade4c348bb57450, 0xce0b6a6ab239ea25,
      0x1c4f9fd2eee850e6, 0x9583cae8c6becffd, 0x88712394041a30d9, 0xf1a574be997cf7a6,
      0xcecca07fcfe75983, 0x9f8cbd127ce2fb74, 0xdca5cc88a90d5ac9, 0xfcd88a8bcbef15a6,
      0xcacb6c095ef86b1f, 0xb89fd47dace6439a, 0x2d78cfd20be7b848, 0x38ce4a23793c55b8]
  {
    FirstRound5();
    NextRound(FirstRounds(5), FIRST_WORDS, Sigma(5));
  }

  lemma FirstRound7()
    ensures FirstRounds(7) == [
      0x96047ee265e7d867, 0x2943af9d3c4fdb22, 0xd883b7db89408f15, 0x1c8551acf7f41554,
      0x7ae2c50ee42b0fad, 0x847145fc889c8fa4, 0x5d2a6c7c8d0b10b3, 0xc17c9407c50e3593,
      0x50657fa1a5c9c865, 0xce194a790a4bff3e, 0x90a00d366c30e434, 0x84ac678e8336f9ac,
      0xff095ca72c7e6c94, 0xfc485a910fa8ffdc, 0x1c4a22791c00daf0, 0xec9dcfff81721aca]
  {
    FirstRound6();
    NextRound(FirstRounds(6), FIRST_WORDS, Sigma(6));
  }

  lemma FirstRound8()
    ensures FirstRounds(8) == [
      0x8c1df7569fae8331, 0x9324f55c559ca7f0, 0x3c87a436367ddbc9, 0x96b01d7bf6b0e248,
      0xa269e4d5b1d2fcc8, 0x28e3da9a9987aabf, 0x709683496598a489, 0xfe641ee468dfcfb2,
      0xb231d5c39bd95170, 0xc52a6667f7e1ae9f, 0x020178df459708e9, 0xe1fcdec861c8299b,
      0xe356f0f71ba185b4, 0x4046fa950d011b76, 0x833dd84ecae58ade, 0xc1fefe43cb4bcdbe]
  {
    FirstRound7();
    NextRound(FirstRounds(7), FIRST_WORDS, Sigma(7));
  }

  lemma FirstRound9()
    ensures FirstRounds(9) == [
      0x19b2eb773131f12d, 0xd97831c3e81a23b4, 0x812580e91bdb8578, 0x78bf3c34eb94cf2f,
      0x811ddeab24051a41, 0x0495ada406df226a, 0xb04af269eed30a09, 0xb7c4aeb032eba882,
      0xffa20c6bff3c9555, 0x9defa629413d15f5, 0x978434449d624f75, 0xbf9a8696c407716e,
      0xbe4fca456f25e4c0, 0xf5eff8ef1f1448c3, 0x5b6d5fa7ac9d565d, 0xfdbf11faef5b3fca]
  {
    FirstRound8();
    NextRound(FirstRounds(8), FIRST_WORDS, Sigma(8));
  }

  lemma FirstRound10()
    ensures FirstRounds(10) == [
      0xebd619b5f8b1be70, 0xadb61ae7ab72c55d, 0x47c295aac773ac11, 0xb95cb48ae12de89d,
      0xe8be1ed9ab263cab, 0x11e3d6b1b536e88d, 0x0bdf88c3bbb50d49, 0xe26217ae989c995f,
      0x8b0b490c4dcad7f7, 0xc793250325155fde, 0xd1f1ee1cec7bccf8, 0xb776d05cdb8b693d,
      0x3a6ad9b73c6ed2da, 0x181f764c0a7e7684, 0x19e7b3e915674b9f, 0x8374129d8a5c4958]
  {
    FirstRound9();
    NextRound(FirstRounds(9), FIRST_WORDS, Sigma(9));
  }

  lemma FirstRound11()
    ensures FirstRounds(11) == [
      0x0ad76ffc76b7f19d, 0x354559e0593ec7e0, 0x8dfb209efd29190b, 0xbda437d2fe1aa312,
      0xd4c172d185e8199d, 0x51c3c1252a14346d, 0xed5ba474830380d4, 0x692d47b3f994748e,
      0x6423fec1649c9bf9, 0xf66da7dc7de21f96, 0xf324a746f2b365ce, 0x3dbd1d348a49f817,
      0xf80ad2f5a0562b6b, 0xded1eaf7a9c54847, 0x43384486d3c2e9ef, 0xaef183f14834569d]
  {
    FirstRound10();
    NextRound(FirstRounds(10), FIRST_WORDS, Sigma(0));
  }

  lemma FirstRound12()
    ensures FirstRounds(12) == [
      0x406b15a03c849bd0, 0x8e00417da54b6655, 0x1471183449b5b968, 0xa817ee624e0a19ec,
      0x1b71c12be9147700, 0x38a6c598699b7a08, 0x3fa1eac5d2430c19, 0x8441dc2a281c1730,
      0xd5c276ede847eac2, 0xdb59a57f62470265, 0x00bab2b1a3787149, 0x6ce8f5f753895c5b,
      0x6566d526f81f8cde, 0x1d54cdaf31ef5c4a, 0x17633d3f6b177255, 0x36ca6fbb1eb2c3ee]
  {
    FirstRound11();
    NextRound(FirstRounds(11), FIRST_WORDS, Sigma(1));
  }

  lemma FirstFolded()
    ensures FoldIn(FIRST_STATE, FirstRounds(12)) == [
      0xffa0852a267eb85a, 0xee3e4a8743c6c30b, 0x28a559f71459300a, 0x61b0eeaf429e7346,
      0x2f194672bced790f, 0xbef760bb734a4a5d, 0x37410e514215c327, 0xe96b7e8825d0f5a7]
  {
    hide FirstRounds, Rounds, FoldIn;
    FirstRound12();
    FoldedWords(FIRST_STATE, FirstRounds(12));
  }

  // ---------- and the second, padded with one zero ----------

  const SECOND_STATE: seq<Word> := [
    0xffa0852a267eb85a, 0xee3e4a8743c6c30b, 0x28a559f71459300a, 0x61b0eeaf429e7346,
    0x2f194672bced790f, 0xbef760bb734a4a5d, 0x37410e514215c327, 0xe96b7e8825d0f5a7]

  const SECOND_WORDS: seq<Word> := [
    0x8786858483828180, 0x8f8e8d8c8b8a8988, 0x9796959493929190, 0x9f9e9d9c9b9a9998,
    0xa7a6a5a4a3a2a1a0, 0xafaeadacabaaa9a8, 0xb7b6b5b4b3b2b1b0, 0xbfbebdbcbbbab9b8,
    0xc7c6c5c4c3c2c1c0, 0xcfcecdcccbcac9c8, 0xd7d6d5d4d3d2d1d0, 0xdfdedddcdbdad9d8,
    0xe7e6e5e4e3e2e1e0, 0xefeeedecebeae9e8, 0xf7f6f5f4f3f2f1f0, 0x00fefdfcfbfaf9f8]

  function SecondRounds(n: nat): (v: seq<Word>)
    ensures |v| == 16
  {
    Rounds(WorkVector(SECOND_STATE, 255, true), SECOND_WORDS, n)
  }

  lemma SecondStart()
    ensures SecondRounds(0) == [
      0xffa0852a267eb85a, 0xee3e4a8743c6c30b, 0x28a559f71459300a, 0x61b0eeaf429e7346,
      0x2f194672bced790f, 0xbef760bb734a4a5d, 0x37410e514215c327, 0xe96b7e8825d0f5a7,
      0x6a09e667f3bcc908, 0xbb67ae8584caa73b, 0x3c6ef372fe94f82b, 0xa54ff53a5f1d36f1,
      0x510e527fade6822e, 0x9b05688c2b3e6c1f, 0xe07c265404be4294, 0x5be0cd19137e2179]
  {
  }

  lemma SecondRound1()
    ensures SecondRounds(1) == [
      0x436057cfe35177cc, 0x6212b2b9d32b27eb, 0x44d0baf8e9caa313, 0xaf727fa5ae57f6f2,
      0x27f96597ec8988c2, 0x78eab769496bb8e3, 0x7d12dd4c1c6c768e, 0x182fc110fa2dc058,
      0xbd0a0de4946957d1, 0x3240f2ab9ac2ec9f, 0xff42543713c08daa, 0xacabb088a517b6e4,
      0x37c9593c684db9bd, 0xa0e10840bd1f6cf5, 0x020943474e2c2145, 0x468a3a93cdf9560c]
  {
    SecondStart();
    NextRound(SecondRounds(0), SECOND_WORDS, Sigma(0));
  }

  lemma SecondRound2()
    ensures SecondRounds(2) == [
      0x4c5eba1b70a8162b, 0x35ad5759955822e6, 0x8e1ab9c9f58f881a, 0x2938281c3334bb8b,
      0x610109ffa60df4ed, 0x8b57f3a4600373c3, 0xbb9eb86582147d81, 0xfa4c6242bbcd1f26,
      0xf1a1f2e3c3105c4f, 0x8229b14e3174d761, 0xb5d801db49ba1d3f, 0x6b16401836b996e3,
      0xe90e08fee02f6c56, 0x7bc161387058c7fe, 0xd91dacc67fb34d8e, 0x1ddc981fa6e7bad5]
  {
    SecondRound1();
    NextRound(SecondRounds(1), SECOND_WORDS, Sigma(1));
  }

  lemma SecondRound3()
    ensures SecondRounds(3) == [
      0xf725dae6167f2615, 0xa92de1798049b60c, 0x115fa7199ea00d73, 0x468dda7bd306b2fa,
      0x6dd51b69c9e28213, 0x50807442b02c383b, 0xc26d322f725c51a3, 0xb66740fc9cd39459,
      0xfab282da2b14f9e9, 0x4cfc35b0b187d79e, 0xfd66f477caa6dcbe, 0x49631f696d2da76f,
      0xa001c43ae7117c50, 0x8330acb80056f358, 0x5e79f3b782f3ca77, 0x96be6114c48f396f]
  {
    SecondRound2();
    NextRound(SecondRounds(2), SECOND_WORDS, Sigma(2));
  }

  lemma SecondRound4()
    ensures SecondRounds(4) == [
      0xaf012649e2388bcc, 0x5929a074eea3c512, 0xad9851655411dd87, 0x8e3dd1d55454a619,
      0x27786070a50d567b, 0x7b1cb0fa6ec6203f, 0x0a19916a1e1a70d2, 0xb1aa50ced0f0ccba,
      0x3dbc7c584785f901, 0x625d2d02578b945f, 0x3b3f1dce7808a360, 0xde47a2f474ad26e1,
      0xfa31565822d5379c, 0x368abfa1edcb4dba, 0xd63817e31fefecbb, 0x3361b0e670a66ea6]
  {
    SecondRound3();
    NextRound(SecondRounds(3), SECOND_WORDS, Sigma(3));
  }

  lemma SecondRound5()
    ensures SecondRounds(5) == [
      0x06bfe1060f41c313, 0xbab41707642ead1c, 0x733617705cdd9167, 0x17b4a91d3b778cda,
      0xa9372c7ed98f336c, 0x812e54267b803032, 0x4e147ea3582e68db, 0x4172de439696b8c7,
      0x45179fac7afbfc71, 0x8a9aecd652a7f77d, 0x970174fea3b6532d, 0x00a01563626fcb8c,
      0xfb4ae561512f8547, 0x070db70b688bdcb4, 0x8c9d66a2376bd1ac, 0x2b4775b58f21ada1]
  {
    SecondRound4();
    NextRound(SecondRounds(4), SECOND_WORDS, Sigma(4));
  }

  lemma SecondRound6()
    ensures SecondRounds(6) == [
      0xace3ed2b121b52b1, 0x44d8359427140010, 0xef9250825fe1ffa0, 0x46ca663b51153cde,
      0x5ad53a1be84a1d92, 0x00b4e35b3545c73c, 0x444e52aab6472c5e, 0x09f0e99e4c89d599,
      0x6e6e77ead0131c93, 0xef58a531f2a96b5c, 0x23e20d51adb10f2c, 0xd87cdc13e549eec5,
      0xc41afbb7e0eb0e7c, 0xdb0282f0a1d8ad07, 0x06612444a83dbb2c, 0x9a492f22891fb246]
  {
    SecondRound5();
    NextRound(SecondRounds(5), SECOND_WORDS, Sigma(5));
  }

  lemma SecondRound7()
    ensures SecondRounds(7) == [
      0xfae0d7112cba1543, 0x2ee1a547a8fe655e, 0xcaba0f6c5b9df94d, 0xa0fd4742284bcf0f,
      0xc087a45db4101e73, 0x6851dd18a9269c37, 0xde56e45392d66364, 0x4c80975a10c6701e,
      0x03c4d768e1981a61, 0xb504520a5a2f526b, 0xb3a7bed00d0f4c66, 0xdbbee43ed0bd5ba7,
      0x0933f9e3a1adc911, 0x3f0396d74125db89, 0xb8c999e7befc3fb8, 0xdeb0682ed3174586]
  {
    SecondRound6();
    NextRound(SecondRounds(6), SECOND_WORDS, Sigma(6));
  }

  lemma SecondRound8()
    ensures SecondRounds(8) == [
      0x385c2fe9493e5856, 0xfd91a51433c93dfa, 0x27df9805914990d2, 0xe9e435af3d0728dd,
      0xa300527ec1e3441a, 0x02ef0e7129b8b493, 0xcfc31913c613bc9a, 0xb55ff6fc26ad430c,
      0xabe0715dcbfe494d, 0x1c5caae7b4c8da78, 0x66142b21248fbb3e, 0x0c3a822febd1f8ec,
      0xd7c01fb97056d5d3, 0xd29b7b8db6e1baf0, 0x24014918a134cbb4, 0xadac5dcd1394ee98]
  {
    SecondRound7();
    NextRound(SecondRounds(7), SECOND_WORDS, Sigma(7));
  }

  lemma SecondRound9()
    ensures SecondRounds(9) == [
      0xe0e08a1b3995299c, 0x567f46041786e0e8, 0x8f6a339d75466f3f, 0x8b66d788c3623227,
      0x5dcc2f765fd89cb1, 0x7f6e0221822a4a8a, 0xc5d0acfdbdc041d6, 0x46115c4985baab1e,
      0xd91e1a93efa1b5c9, 0x208a0c0607b02fe0, 0xf47b6fc843e0e320, 0xb635ec1273e2d921,
      0x25f77db6319f8628, 0x848b0689ce6efe26, 0xd46a6a07b21c8b7a, 0xdcadfab7feb02770]
  {
    SecondRound8();
    NextRound(SecondRounds(8), SECOND_WORDS, Sigma(8));
  }

  lemma SecondRound10()
    ensures SecondRounds(10) == [
      0xbd37d2e00ec209f0, 0x8fc5f2522193d8f4, 0xa635f65ed0d18af4, 0x332d4a86d1128f4f,
      0xfdeff05462cc64bb, 0xfe9bc92bed20cc2c, 0x1edeb0a97b3c3d30, 0x87d6d8b3bdb41192,
      0x53e9094f1bd09d73, 0xc84888d4c48d637a, 0x832123c18e2c870a, 0xa9e9c641d72ac06a,
      0xa6221e7ff8decb22, 0xb846ef9e3608bf8a, 0x06d77f9f1acccb93, 0x4b3ac511fd747fee]
  {
    SecondRound9();
    NextRound(SecondRounds(9), SECOND_WORDS, Sigma(9));
  }

  lemma SecondRound11()
    ensures SecondRounds(11) == [
      0x1f4cec12fea7dd4a, 0x893fd2a517d23dfa, 0x23298652ca1a51e9, 0x152185d25ca2d61d,
      0x2bfef96949841162, 0x6b68d30401065554, 0xc5e5ae4fe8c1e599, 0x92f6ac522358d0f7,
      0x29792ec2519dbf26, 0x9150e67046b0fab1, 0xa51ab225b2723f34, 0x17f5cf079e172c44,
      0x8e5e34a86afc7259, 0xe8592ebfcaf4d379, 0x0e80cefddb4a240c, 0x7190dc4336292360]
  {
    SecondRound10();
    NextRound(SecondRounds(10), SECOND_WORDS, Sigma(0));
  }

  lemma SecondRound12()
    ensures SecondRounds(12) == [
      0x8b16d8847a082ee4, 0x49f13965d02b9652, 0x418a9362f616a499, 0x12df5cb0e8f91e3b,
      0x562887d97d3c0d5b, 0x63c2b15c3975c940, 0x0411e0cb12f3918e, 0x7c4351fa5cf4e082,
      0x02803526a1b3b7e5, 0x5d537d0531a2124b, 0xdcd5307d0cb095b1, 0xe81313f025b21704,
      0x59521a0865ac640f, 0xc09004f0cc132ca7, 0xf137d640d8484650, 0xbd51893db8280af1]
  {
    SecondRound11();
    NextRound(SecondRounds(11), SECOND_WORDS, Sigma(1));
  }

  lemma SecondFolded()
    ensures FoldIn(SECOND_STATE, SecondRounds(12)) == [
      0x76366888fdc5215b, 0xfa9c0ee7a24f4712, 0xb5fafae8eeff0122, 0x9b7ca1ef8fd57a79,
      0x2063dba3a47d105b, 0x1da5d517862cafba, 0xc26738da88ae14f9, 0x2879a64fc10c1fd4]
  {
    hide SecondRounds, Rounds, FoldIn;
    SecondRound12();
    FoldedWords(SECOND_STATE, SecondRounds(12));
  }

  const COUNTING_DIGEST: seq<seq<Byte>> := [
    [0x5b, 0x21, 0xc5, 0xfd, 0x88, 0x68, 0x36, 0x76],
    [0x12, 0x47, 0x4f, 0xa2, 0xe7, 0x0e, 0x9c, 0xfa],
    [0x22, 0x01, 0xff, 0xee, 0xe8, 0xfa, 0xfa, 0xb5],
    [0x79, 0x7a, 0xd5, 0x8f, 0xef, 0xa1, 0x7c, 0x9b],
    [0x5b, 0x10, 0x7d, 0xa4, 0xa3, 0xdb, 0x63, 0x20],
    [0xba, 0xaf, 0x2c, 0x86, 0x17, 0xd5, 0xa5, 0x1d],
    [0xf9, 0x14, 0xae, 0x88, 0xda, 0x38, 0x67, 0xc2],
    [0xd4, 0x1f, 0x0c, 0xc1, 0x4f, 0xa6, 0x79, 0x28]]

  lemma CountingBytes()
    ensures SpellsOut(FoldIn(SECOND_STATE, SecondRounds(12)), COUNTING_DIGEST)
  {
    hide FoldIn, SecondRounds, Rounds;
    SecondFolded();
  }
  // ---------- from blocks to digests ----------

  /** The digest, eight bytes in a row. */
  ghost predicate Reads(digest: seq<Byte>, rows: seq<seq<Byte>>) {
    && |digest| == 64 && |rows| == 8
    && forall j, k :: 0 <= j < 8 && 0 <= k < 8 ==> |rows[j]| == 8 && digest[8 * j + k] == rows[j][k]
  }

  lemma SpeltBytes(h: seq<Word>, rows: seq<seq<Byte>>)
    requires SpellsOut(h, rows)
    ensures Reads(ToBytes(h), rows)
  {
    hide WordByte, ToBytes;
    forall j, k | 0 <= j < 8 && 0 <= k < 8
      ensures |rows[j]| == 8 && ToBytes(h)[8 * j + k] == rows[j][k]
    {
      assert Spells(h[j], rows[j]);
      ByteOfWord(h, j, k);
    }
  }

  lemma {:induction false} LoadOfZeros(data: seq<Byte>, o: nat, n: nat)
    requires n <= 8 && o + n <= |data| && forall i :: o <= i < o + n ==> data[i] == 0
    ensures Load(data, o, n) == 0
  {
    if n > 0 { LoadOfZeros(data, o, n - 1); }
  }

  const ABC: seq<Byte> := [0x61, 0x62, 0x63]

  lemma AbcWords()
    ensures WordsOf(Block(Padded(ABC), 0)) == ABC_WORDS
  {
    hide Load;
    var block := Block(Padded(ABC), 0);
    LoadEight(block, 0);
    forall i | 1 <= i < 16
      ensures Load(block, 8 * i, 8) == 0
    {
      LoadOfZeros(block, 8 * i, 8);
    }
  }

  lemma StartState()
    ensures InitialState(64) == ABC_STATE == FIRST_STATE
  {
  }

  lemma OneBlock(h: seq<Word>, data: seq<Byte>)
    requires |h| == 8 && |data| < 128
    ensures RfcState(Compress, h, data) == F(h, Block(Padded(data), 0), |data|, true)
  {
    hide F;
  }

  /** The digest of "abc" is the published one. */
  lemma AbcDigest()
    ensures Reads(Hash(ABC, 64), ABC_DIGEST)
  {
    hide Load, FoldIn, Rounds, WorkVector, WordsOf, Padded, Block, ToBytes, RfcState, InitialState, SpellsOut, Reads;
    StartState();
    AbcWords();
    OneBlock(ABC_STATE, ABC);
    AbcBytes();
    var state := RfcState(Compress, InitialState(64), ABC);
    assert state == FoldIn(ABC_STATE, AbcRounds(12));
    SpeltBytes(state, ABC_DIGEST);
    assert ToBytes(state)[..64] == ToBytes(state);
  }

  // ---------- the bytes 0 to 254 ----------

  const COUNTING: seq<Byte> := ToBytes(FIRST_WORDS + SECOND_WORDS)[..255]

  lemma CountingPadded()
    ensures Padded(COUNTING) == ToBytes(FIRST_WORDS + SECOND_WORDS)
  {
    hide ToBytes, WordByte;
    var bytes := ToBytes(FIRST_WORDS + SECOND_WORDS);
    ByteOfWord(FIRST_WORDS + SECOND_WORDS, 31, 7);
    LastByte();
    assert bytes[255] == 0 && Padded(COUNTING) == COUNTING + Zeros(1);
    assert bytes == bytes[..255] + [bytes[255]];
  }

  lemma LastByte()
    ensures WordByte(0x00fefdfcfbfaf9f8, 7) == 0
  {
  }

  lemma BlockLoad(p: seq<Byte>, i: nat, o: nat)
    requires (i + 1) * BLOCK_SIZE <= |p| && o + 8 <= BLOCK_SIZE
    ensures |Block(p, i)| == BLOCK_SIZE && Load(Block(p, i), o, 8) == Load(p, i * BLOCK_SIZE + o, 8)
  {
    hide Join, Load;
    LoadEight(Block(p, i), o);
    LoadEight(p, i * BLOCK_SIZE + o);
  }

  /** The blocks of the bytes of some words are those words. */
  lemma BlockWords(h: seq<Word>, i: nat)
    requires 16 * (i + 1) <= |h|
    ensures WordsOf(Block(ToBytes(h), i)) == h[16 * i..16 * (i + 1)]
  {
    hide Load, ToBytes, Block;
    var block := Block(ToBytes(h), i);
    forall j | 0 <= j < 16
      ensures WordsOf(block)[j] == h[16 * i..16 * (i + 1)][j]
    {
      BlockLoad(ToBytes(h), i, 8 * j);
      LoadToBytes(h, 16 * i + j);
      assert WordsOf(block)[j] == Load(block, 8 * j, 8);
    }
  }

  lemma CountingWords()
    ensures WordsOf(Block(Padded(COUNTING), 0)) == FIRST_WORDS
    ensures WordsOf(Block(Padded(COUNTING), 1)) == SECOND_WORDS
  {
    hide WordsOf, ToBytes, Padded;
    CountingPadded();
    var h := FIRST_WORDS + SECOND_WORDS;
    BlockWords(h, 0);
    BlockWords(h, 1);
    assert h[0..16] == FIRST_WORDS && h[16..32] == SECOND_WORDS;
  }

  lemma TwoBlocks(h: seq<Word>, data: seq<Byte>, p: seq<Byte>)
    requires |h| == 8 && p == Padded(data) && BlockCount(|data|) == 2 && |p| == 256 && |data| <= 256
    ensures RfcState(Compress, h, data) == F(F(h, Block(p, 0), 128, false), Block(p, 1), |data|, true)
  {
    hide F, Block, Padded, Chain, Compress, BlockCount;
    ChainOne(h, p);
    Compressed(F(h, Block(p, 0), 128, false), Block(p, 1), |data|, true);
  }

  lemma Compressed(h: seq<Word>, block: seq<Byte>, t: nat, last: bool)
    requires |h| == 8 && t <= 256
    ensures Compress(h, block, t, last) == F(h, block, t, last)
  {
    hide F;
  }

  lemma ChainOne(h: seq<Word>, p: seq<Byte>)
    requires |h| == 8 && |p| >= 128
    ensures Chain(Compress, h, p, 1) == F(h, Block(p, 0), 128, false)
  {
    hide F, Block, Compress;
    assert Chain(Compress, h, p, 0) == h;
    Compressed(h, Block(p, 0), 128, false);
  }

  /** A digest of two blocks. All words of the message differ, so that each entry of the schedule counts. */
  lemma CountingDigest()
    ensures Reads(Hash(COUNTING, 64), COUNTING_DIGEST)
  {
    hide Load, FoldIn, Rounds, WorkVector, WordsOf, Padded, Block, ToBytes, RfcState, InitialState, SpellsOut, Reads;
    StartState();
    CountingWords();
    assert BlockCount(|COUNTING|) == 2;
    TwoBlocks(FIRST_STATE, COUNTING, Padded(COUNTING));
    FirstFolded();
    CountingBytes();
    var state := RfcState(Compress, InitialState(64), COUNTING);
    assert state == FoldIn(SECOND_STATE, SecondRounds(12));
    SpeltBytes(state, COUNTING_DIGEST);
    assert ToBytes(state)[..64] == ToBytes(state);
  }

  // ---------- the initialization vector ----------

  /** `n` is the integer part of the square root of `m`. */
  predicate IsRoot(n: nat, m: nat) { n * n <= m < (n + 1) * (n + 1) }

  /** The words are the first 64 fractional bits of the square roots of the first eight primes, section 2.6. */
  lemma InitializationVector()
    ensures |IV| == 8
    ensures IsRoot(1 * TWO_64 + IV[0] as nat, 2 * TWO_64 * TWO_64)
    ensures IsRoot(1 * TWO_64 + IV[1] as nat, 3 * TWO_64 * TWO_64)
    ensures IsRoot(2 * TWO_64 + IV[2] as nat, 5 * TWO_64 * TWO_64)
    ensures IsRoot(2 * TWO_64 + IV[3] as nat, 7 * TWO_64 * TWO_64)
    ensures IsRoot(3 * TWO_64 + IV[4] as nat, 11 * TWO_64 * TWO_64)
    ensures IsRoot(3 * TWO_64 + IV[5] as nat, 13 * TWO_64 * TWO_64)
    ensures IsRoot(4 * TWO_64 + IV[6] as nat, 17 * TWO_64 * TWO_64)
    ensures IsRoot(4 * TWO_64 + IV[7] as nat, 19 * TWO_64 * TWO_64)
  {
  }

  // ---------- parameters ----------

  /** Two requested lengths start from states that differ in the first word, by the difference of the lengths. */
  lemma LengthInParameters(a: nat, b: nat)
    requires 1 <= a <= 64 && 1 <= b <= 64
    ensures InitialState(a)[0] ^ InitialState(b)[0] == (a as Word) ^ (b as Word)
    ensures InitialState(a)[1..] == InitialState(b)[1..]
  {
    XorCancels(IV[0], 0x01010000, a as Word, b as Word);
  }

  lemma XorCancels(x: Word, p: Word, a: Word, b: Word)
    ensures (x ^ p ^ a) ^ (x ^ p ^ b) == a ^ b
  {
  }

  /** The work vector holds the whole state, and besides the initialization vector the 128-bit counter and whether
      the block is the last. */
  lemma CounterInVector(h: seq<Word>, t: nat, last: bool)
    requires |h| == 8 && t < TWO_64 * TWO_64
    ensures var v := WorkVector(h, t, last);
      && v[..8] == h && v[8..12] == IV[..4] && v[15] == IV[7]
      && Xor(v[12], IV[4]) == ToWord(t % 0x1_0000_0000_0000_0000)
      && Xor(v[13], IV[5]) == ToWord(t / 0x1_0000_0000_0000_0000)
      && Xor(v[14], IV[6]) == if last then 0xFFFF_FFFF_FFFF_FFFF else 0
  {
    hide Xor, Not, ToWord;
    var v, low, high := WorkVector(h, t, last), t % TWO_64, t / TWO_64;
    XorTwice(IV[4], ToWord(low));
    XorTwice(IV[5], ToWord(high));
    Opposite(IV[6]);
    assert v[12] == Xor(IV[4], ToWord(low)) && v[13] == Xor(IV[5], ToWord(high));
  }

  lemma XorTwice(x: Word, y: Word)
    ensures Xor(Xor(x, y), x) == y
  {
  }

  lemma Opposite(x: Word)
    ensures Xor(Not(x), x) == 0xFFFF_FFFF_FFFF_FFFF && Xor(x, x) == 0
  {
  }
}
