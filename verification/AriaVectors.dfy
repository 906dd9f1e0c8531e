/** The example of appendix A.1 of RFC 5794, from the key to the ciphertext and back. */
module AriaVectors {
  import opened Aria
  import opened AriaKeys

  const KEY: seq<bv8> := [0x00, 0x01, 0x02, 0x03, 0x04, 0x05, 0x06, 0x07,
                          0x08, 0x09, 0x0a, 0x0b, 0x0c, 0x0d, 0x0e, 0x0f]
  const PLAIN := Block(Word(0x00, 0x11, 0x22, 0x33), Word(0x44, 0x55, 0x66, 0x77),
                       Word(0x88, 0x99, 0xaa, 0xbb), Word(0xcc, 0xdd, 0xee, 0xff))
  const CIPHER := Block(Word(0xd7, 0x18, 0xfb, 0xd6), Word(0xab, 0x64, 0x4c, 0x73),
                        Word(0x9d, 0xa9, 0x5f, 0x3b), Word(0xe6, 0x45, 0x17, 0x78))

  // ---- the generators ----

  const RIGHT := Block(Word(0x00, 0x00, 0x00, 0x00), Word(0x00, 0x00, 0x00, 0x00),
                       Word(0x00, 0x00, 0x00, 0x00), Word(0x00, 0x00, 0x00, 0x00))
  const W0 := Block(Word(0x00, 0x01, 0x02, 0x03), Word(0x04, 0x05, 0x06, 0x07),
                    Word(0x08, 0x09, 0x0a, 0x0b), Word(0x0c, 0x0d, 0x0e, 0x0f))
  const W1 := Block(Word(0x2a, 0xfb, 0xea, 0x74), Word(0x1e, 0x17, 0x46, 0xdd),
                    Word(0x55, 0xc6, 0x3b, 0xa1), Word(0xaf, 0xce, 0xa0, 0xa5))
  const W2 := Block(Word(0x7c, 0x85, 0x78, 0x01), Word(0x8b, 0xb1, 0x27, 0xe0),
                    Word(0x2d, 0xfe, 0x4e, 0x78), Word(0xc2, 0x88, 0xe3, 0x3c))
  const W3 := Block(Word(0x67, 0x85, 0xb5, 0x2b), Word(0x74, 0xda, 0x46, 0xbf),
                    Word(0x18, 0x10, 0x54, 0x08), Word(0x27, 0x63, 0xff, 0x6d))

  lemma FirstMixed()
    ensures Mixed(Block(Word(0x00, 0x01, 0x02, 0x03), Word(0x04, 0x05, 0x06, 0x07),
                        Word(0x08, 0x09, 0x0a, 0x0b), Word(0x0c, 0x0d, 0x0e, 0x0f)),
                  Block(Word(0x51, 0x7c, 0xc1, 0xb7), Word(0x27, 0x22, 0x0a, 0x94),
                        Word(0xfe, 0x13, 0xab, 0xe8), Word(0xfa, 0x9a, 0x6e, 0xe0)),
                  Block(Word(0x00, 0x00, 0x00, 0x00), Word(0x00, 0x00, 0x00, 0x00),
                        Word(0x00, 0x00, 0x00, 0x00), Word(0x00, 0x00, 0x00, 0x00)), true)
         == Block(Word(0x2a, 0xfb, 0xea, 0x74), Word(0x1e, 0x17, 0x46, 0xdd),
                  Word(0x55, 0xc6, 0x3b, 0xa1), Word(0xaf, 0xce, 0xa0, 0xa5))
  {
    hide Diffuse;
    StepsDiffuse(Block(Word(0xd1, 0xb9, 0x33, 0x14), Word(0x26, 0x69, 0x81, 0x5c),
                       Word(0x42, 0x2e, 0xf1, 0x94), Word(0x42, 0x65, 0x90, 0xd3)));
  }

  lemma FirstGenerator()
    ensures Mixed(W0, Constant(0), RIGHT, true) == W1
  {
    hide Mixed;
    FirstMixed();
  }

  lemma SecondMixed()
    ensures Mixed(Block(Word(0x2a, 0xfb, 0xea, 0x74), Word(0x1e, 0x17, 0x46, 0xdd),
                        Word(0x55, 0xc6, 0x3b, 0xa1), Word(0xaf, 0xce, 0xa0, 0xa5)),
                  Block(Word(0x6d, 0xb1, 0x4a, 0xcc), Word(0x9e, 0x21, 0xc8, 0x20),
                        Word(0xff, 0x28, 0xb1, 0xd5), Word(0xef, 0x5d, 0xe2, 0xb0)),
                  Block(Word(0x00, 0x01, 0x02, 0x03), Word(0x04, 0x05, 0x06, 0x07),
                        Word(0x08, 0x09, 0x0a, 0x0b), Word(0x0c, 0x0d, 0x0e, 0x0f)), false)
         == Block(Word(0x7c, 0x85, 0x78, 0x01), Word(0x8b, 0xb1, 0x27, 0xe0),
                  Word(0x2d, 0xfe, 0x4e, 0x78), Word(0xc2, 0x88, 0xe3, 0x3c))
  {
    hide Diffuse;
    StepsDiffuse(Block(Word(0x16, 0x06, 0xe0, 0x70), Word(0x3a, 0x64, 0x19, 0xba),
                       Word(0x62, 0x3d, 0x7e, 0xc4), Word(0x72, 0x5c, 0x2c, 0x97)));
  }

  lemma SecondGenerator()
    ensures Mixed(W1, Constant(1), W0, false) == W2
  {
    hide Mixed;
    SecondMixed();
  }

  lemma ThirdMixed()
    ensures Mixed(Block(Word(0x7c, 0x85, 0x78, 0x01), Word(0x8b, 0xb1, 0x27, 0xe0),
                        Word(0x2d, 0xfe, 0x4e, 0x78), Word(0xc2, 0x88, 0xe3, 0x3c)),
                  Block(Word(0xdb, 0x92, 0x37, 0x1d), Word(0x21, 0x26, 0xe9, 0x70),
                        Word(0x03, 0x24, 0x97, 0x75), Word(0x04, 0xe8, 0xc9, 0x0e)),
                  Block(Word(0x2a, 0xfb, 0xea, 0x74), Word(0x1e, 0x17, 0x46, 0xdd),
                        Word(0x55, 0xc6, 0x3b, 0xa1), Word(0xaf, 0xce, 0xa0, 0xa5)), true)
         == Block(Word(0x67, 0x85, 0xb5, 0x2b), Word(0x74, 0xda, 0x46, 0xbf),
                  Word(0x18, 0x10, 0x54, 0x08), Word(0x27, 0x63, 0xff, 0x6d))
  {
    hide Diffuse;
    StepsDiffuse(Block(Word(0x5c, 0x2b, 0x92, 0xd6), Word(0xac, 0x65, 0xec, 0xe0),
                       Word(0x31, 0x80, 0xe5, 0x09), Word(0xb4, 0xff, 0x95, 0x6c)));
  }

  lemma ThirdGenerator()
    ensures Mixed(W2, Constant(2), W1, true) == W3
  {
    hide Mixed;
    ThirdMixed();
  }

  lemma KeyWords()
    ensures KeyLeft(KEY) == W0 && KeyRight(KEY, 128) == RIGHT
  {
  }

  lemma KnownGenerators()
    ensures Generators(KEY, 128) == [W0, W1, W2, W3]
  {
    hide Mixed, Constant, KeyLeft, KeyRight;
    KeyWords();
    FirstGenerator();
    SecondGenerator();
    ThirdGenerator();
  }

  // ---- the round keys ----

  const E1 := Block(Word(0xd4, 0x15, 0xa7, 0x5c), Word(0x79, 0x4b, 0x85, 0xc5),
                    Word(0xe0, 0xd2, 0xa0, 0xb3), Word(0xcb, 0x79, 0x3b, 0xf6))
  const E2 := Block(Word(0x36, 0x9c, 0x65, 0xe4), Word(0xb1, 0x17, 0x77, 0xab),
                    Word(0x71, 0x3a, 0x3e, 0x1e), Word(0x66, 0x01, 0xb8, 0xf4))
  const E3 := Block(Word(0x03, 0x68, 0xd4, 0xf1), Word(0x3d, 0x14, 0x49, 0x7b),
                    Word(0x65, 0x29, 0xad, 0x7a), Word(0xc8, 0x09, 0xe7, 0xd0))
  const E4 := Block(Word(0xc6, 0x44, 0x55, 0x2b), Word(0x54, 0x9a, 0x26, 0x3f),
                    Word(0xb8, 0xd0, 0xb5, 0x09), Word(0x06, 0x22, 0x9e, 0xec))
  const E5 := Block(Word(0x5f, 0x9c, 0x43, 0x49), Word(0x51, 0xf2, 0xd2, 0xef),
                    Word(0x34, 0x27, 0x87, 0xb1), Word(0xa7, 0x81, 0x79, 0x4c))
  const E6 := Block(Word(0xaf, 0xea, 0x2c, 0x0c), Word(0xe7, 0x1d, 0xb6, 0xde),
                    Word(0x42, 0xa4, 0x74, 0x61), Word(0xf4, 0x32, 0x3c, 0x54))
  const E7 := Block(Word(0x32, 0x42, 0x86, 0xdb), Word(0x44, 0xba, 0x4d, 0xb6),
                    Word(0xc4, 0x4a, 0xc3, 0x06), Word(0xf2, 0xa8, 0x4b, 0x2c))
  const E8 := Block(Word(0x7f, 0x9f, 0xa9, 0x35), Word(0x74, 0xd8, 0x42, 0xb9),
                    Word(0x10, 0x1a, 0x58, 0x06), Word(0x37, 0x71, 0xeb, 0x7b))
  const E9 := Block(Word(0xaa, 0xb9, 0xc5, 0x77), Word(0x31, 0xfc, 0xd2, 0x13),
                    Word(0xad, 0x56, 0x77, 0x45), Word(0x8f, 0xcf, 0xe6, 0xd4))
  const E10 := Block(Word(0x2f, 0x44, 0x23, 0xbb), Word(0x06, 0x46, 0x5a, 0xba),
                     Word(0xda, 0x56, 0x94, 0xa1), Word(0x9e, 0xb8, 0x84, 0x59))
  const E11 := Block(Word(0x9f, 0x87, 0x72, 0x80), Word(0x8f, 0x5d, 0x58, 0x0d),
                     Word(0x81, 0x0e, 0xf8, 0xdd), Word(0xac, 0x13, 0xab, 0xeb))
  const E12 := Block(Word(0x86, 0x84, 0x94, 0x6a), Word(0x15, 0x5b, 0xe7, 0x7e),
                     Word(0xf8, 0x10, 0x74, 0x48), Word(0x47, 0xe3, 0x5f, 0xad))
  const E13 := Block(Word(0x0f, 0x0a, 0xa1, 0x6d), Word(0xae, 0xe6, 0x1b, 0xd7),
                     Word(0xdf, 0xee, 0x5a, 0x59), Word(0x99, 0x70, 0xfb, 0x35))

  lemma Key1()
    ensures Xor(Block(Word(0x00, 0x01, 0x02, 0x03), Word(0x04, 0x05, 0x06, 0x07),
                      Word(0x08, 0x09, 0x0a, 0x0b), Word(0x0c, 0x0d, 0x0e, 0x0f)),
                Rotated(Block(Word(0x2a, 0xfb, 0xea, 0x74), Word(0x1e, 0x17, 0x46, 0xdd),
                              Word(0x55, 0xc6, 0x3b, 0xa1), Word(0xaf, 0xce, 0xa0, 0xa5)), 109))
         == Block(Word(0xd4, 0x15, 0xa7, 0x5c), Word(0x79, 0x4b, 0x85, 0xc5),
                  Word(0xe0, 0xd2, 0xa0, 0xb3), Word(0xcb, 0x79, 0x3b, 0xf6))
  {
  }

  lemma Key2()
    ensures Xor(Block(Word(0x2a, 0xfb, 0xea, 0x74), Word(0x1e, 0x17, 0x46, 0xdd),
                      Word(0x55, 0xc6, 0x3b, 0xa1), Word(0xaf, 0xce, 0xa0, 0xa5)),
                Rotated(Block(Word(0x7c, 0x85, 0x78, 0x01), Word(0x8b, 0xb1, 0x27, 0xe0),
                              Word(0x2d, 0xfe, 0x4e, 0x78), Word(0xc2, 0x88, 0xe3, 0x3c)), 109))
         == Block(Word(0x36, 0x9c, 0x65, 0xe4), Word(0xb1, 0x17, 0x77, 0xab),
                  Word(0x71, 0x3a, 0x3e, 0x1e), Word(0x66, 0x01, 0xb8, 0xf4))
  {
  }

  lemma Key3()
    ensures Xor(Block(Word(0x7c, 0x85, 0x78, 0x01), Word(0x8b, 0xb1, 0x27, 0xe0),
                      Word(0x2d, 0xfe, 0x4e, 0x78), Word(0xc2, 0x88, 0xe3, 0x3c)),
                Rotated(Block(Word(0x67, 0x85, 0xb5, 0x2b), Word(0x74, 0xda, 0x46, 0xbf),
                              Word(0x18, 0x10, 0x54, 0x08), Word(0x27, 0x63, 0xff, 0x6d)), 109))
         == Block(Word(0x03, 0x68, 0xd4, 0xf1), Word(0x3d, 0x14, 0x49, 0x7b),
                  Word(0x65, 0x29, 0xad, 0x7a), Word(0xc8, 0x09, 0xe7, 0xd0))
  {
  }

  lemma Key4()
    ensures Xor(Block(Word(0x67, 0x85, 0xb5, 0x2b), Word(0x74, 0xda, 0x46, 0xbf),
                      Word(0x18, 0x10, 0x54, 0x08), Word(0x27, 0x63, 0xff, 0x6d)),
                Rotated(Block(Word(0x00, 0x01, 0x02, 0x03), Word(0x04, 0x05, 0x06, 0x07),
                              Word(0x08, 0x09, 0x0a, 0x0b), Word(0x0c, 0x0d, 0x0e, 0x0f)), 109))
         == Block(Word(0xc6, 0x44, 0x55, 0x2b), Word(0x54, 0x9a, 0x26, 0x3f),
                  Word(0xb8, 0xd0, 0xb5, 0x09), Word(0x06, 0x22, 0x9e, 0xec))
  {
  }

  lemma Key5()
    ensures Xor(Block(Word(0x00, 0x01, 0x02, 0x03), Word(0x04, 0x05, 0x06, 0x07),
                      Word(0x08, 0x09, 0x0a, 0x0b), Word(0x0c, 0x0d, 0x0e, 0x0f)),
                Rotated(Block(Word(0x2a, 0xfb, 0xea, 0x74), Word(0x1e, 0x17, 0x46, 0xdd),
                              Word(0x55, 0xc6, 0x3b, 0xa1), Word(0xaf, 0xce, 0xa0, 0xa5)), 97))
         == Block(Word(0x5f, 0x9c, 0x43, 0x49), Word(0x51, 0xf2, 0xd2, 0xef),
                  Word(0x34, 0x27, 0x87, 0xb1), Word(0xa7, 0x81, 0x79, 0x4c))
  {
  }

  lemma Key6()
    ensures Xor(Block(Word(0x2a, 0xfb, 0xea, 0x74), Word(0x1e, 0x17, 0x46, 0xdd),
                      Word(0x55, 0xc6, 0x3b, 0xa1), Word(0xaf, 0xce, 0xa0, 0xa5)),
                Rotated(Block(Word(0x7c, 0x85, 0x78, 0x01), Word(0x8b, 0xb1, 0x27, 0xe0),
                              Word(0x2d, 0xfe, 0x4e, 0x78), Word(0xc2, 0x88, 0xe3, 0x3c)), 97))
         == Block(Word(0xaf, 0xea, 0x2c, 0x0c), Word(0xe7, 0x1d, 0xb6, 0xde),
                  Word(0x42, 0xa4, 0x74, 0x61), Word(0xf4, 0x32, 0x3c, 0x54))
  {
  }

  lemma Key7()
    ensures Xor(Block(Word(0x7c, 0x85, 0x78, 0x01), Word(0x8b, 0xb1, 0x27, 0xe0),
                      Word(0x2d, 0xfe, 0x4e, 0x78), Word(0xc2, 0x88, 0xe3, 0x3c)),
                Rotated(Block(Word(0x67, 0x85, 0xb5, 0x2b), Word(0x74, 0xda, 0x46, 0xbf),
                              Word(0x18, 0x10, 0x54, 0x08), Word(0x27, 0x63, 0xff, 0x6d)), 97))
         == Block(Word(0x32, 0x42, 0x86, 0xdb), Word(0x44, 0xba, 0x4d, 0xb6),
                  Word(0xc4, 0x4a, 0xc3, 0x06), Word(0xf2, 0xa8, 0x4b, 0x2c))
  {
  }

  lemma Key8()
    ensures Xor(Block(Word(0x67, 0x85, 0xb5, 0x2b), Word(0x74, 0xda, 0x46, 0xbf),
                      Word(0x18, 0x10, 0x54, 0x08), Word(0x27, 0x63, 0xff, 0x6d)),
                Rotated(Block(Word(0x00, 0x01, 0x02, 0x03), Word(0x04, 0x05, 0x06, 0x07),
                              Word(0x08, 0x09, 0x0a, 0x0b), Word(0x0c, 0x0d, 0x0e, 0x0f)), 97))
         == Block(Word(0x7f, 0x9f, 0xa9, 0x35), Word(0x74, 0xd8, 0x42, 0xb9),
                  Word(0x10, 0x1a, 0x58, 0x06), Word(0x37, 0x71, 0xeb, 0x7b))
  {
  }

  lemma Key9()
    ensures Xor(Block(Word(0x00, 0x01, 0x02, 0x03), Word(0x04, 0x05, 0x06, 0x07),
                      Word(0x08, 0x09, 0x0a, 0x0b), Word(0x0c, 0x0d, 0x0e, 0x0f)),
                Rotated(Block(Word(0x2a, 0xfb, 0xea, 0x74), Word(0x1e, 0x17, 0x46, 0xdd),
                              Word(0x55, 0xc6, 0x3b, 0xa1), Word(0xaf, 0xce, 0xa0, 0xa5)), 61))
         == Block(Word(0xaa, 0xb9, 0xc5, 0x77), Word(0x31, 0xfc, 0xd2, 0x13),
                  Word(0xad, 0x56, 0x77, 0x45), Word(0x8f, 0xcf, 0xe6, 0xd4))
  {
  }

  lemma Key10()
    ensures Xor(Block(Word(0x2a, 0xfb, 0xea, 0x74), Word(0x1e, 0x17, 0x46, 0xdd),
                      Word(0x55, 0xc6, 0x3b, 0xa1), Word(0xaf, 0xce, 0xa0, 0xa5)),
                Rotated(Block(Word(0x7c, 0x85, 0x78, 0x01), Word(0x8b, 0xb1, 0x27, 0xe0),
                              Word(0x2d, 0xfe, 0x4e, 0x78), Word(0xc2, 0x88, 0xe3, 0x3c)), 61))
         == Block(Word(0x2f, 0x44, 0x23, 0xbb), Word(0x06, 0x46, 0x5a, 0xba),
                  Word(0xda, 0x56, 0x94, 0xa1), Word(0x9e, 0xb8, 0x84, 0x59))
  {
  }

  lemma Key11()
    ensures Xor(Block(Word(0x7c, 0x85, 0x78, 0x01), Word(0x8b, 0xb1, 0x27, 0xe0),
                      Word(0x2d, 0xfe, 0x4e, 0x78), Word(0xc2, 0x88, 0xe3, 0x3c)),
                Rotated(Block(Word(0x67, 0x85, 0xb5, 0x2b), Word(0x74, 0xda, 0x46, 0xbf),
                              Word(0x18, 0x10, 0x54, 0x08), Word(0x27, 0x63, 0xff, 0x6d)), 61))
         == Block(Word(0x9f, 0x87, 0x72, 0x80), Word(0x8f, 0x5d, 0x58, 0x0d),
                  Word(0x81, 0x0e, 0xf8, 0xdd), Word(0xac, 0x13, 0xab, 0xeb))
  {
  }

  lemma Key12()
    ensures Xor(Block(Word(0x67, 0x85, 0xb5, 0x2b), Word(0x74, 0xda, 0x46, 0xbf),
                      Word(0x18, 0x10, 0x54, 0x08), Word(0x27, 0x63, 0xff, 0x6d)),
                Rotated(Block(Word(0x00, 0x01, 0x02, 0x03), Word(0x04, 0x05, 0x06, 0x07),
                              Word(0x08, 0x09, 0x0a, 0x0b), Word(0x0c, 0x0d, 0x0e, 0x0f)), 61))
         == Block(Word(0x86, 0x84, 0x94, 0x6a), Word(0x15, 0x5b, 0xe7, 0x7e),
                  Word(0xf8, 0x10, 0x74, 0x48), Word(0x47, 0xe3, 0x5f, 0xad))
  {
  }

  lemma Key13()
    ensures Xor(Block(Word(0x00, 0x01, 0x02, 0x03), Word(0x04, 0x05, 0x06, 0x07),
                      Word(0x08, 0x09, 0x0a, 0x0b), Word(0x0c, 0x0d, 0x0e, 0x0f)),
                Rotated(Block(Word(0x2a, 0xfb, 0xea, 0x74), Word(0x1e, 0x17, 0x46, 0xdd),
                              Word(0x55, 0xc6, 0x3b, 0xa1), Word(0xaf, 0xce, 0xa0, 0xa5)), 31))
         == Block(Word(0x0f, 0x0a, 0xa1, 0x6d), Word(0xae, 0xe6, 0x1b, 0xd7),
                  Word(0xdf, 0xee, 0x5a, 0x59), Word(0x99, 0x70, 0xfb, 0x35))
  {
  }

  const EK := [E1, E2, E3, E4, E5, E6, E7, E8, E9, E10, E11, E12, E13]

  lemma KnownSchedule()
    ensures Schedule(KEY, 128) == EK
  {
    hide Generators, Xor, Rotated;
    KnownGenerators();
    Key1();
    Key2();
    Key3();
    Key4();
    Key5();
    Key6();
    Key7();
    Key8();
    Key9();
    Key10();
    Key11();
    Key12();
    Key13();
  }

  // ---- the rounds ----

  const P1 := Block(Word(0x7f, 0xc7, 0xf1, 0x2b), Word(0xef, 0xd0, 0xa0, 0x79),
                    Word(0x1d, 0xe8, 0x7f, 0xa9), Word(0x6b, 0x46, 0x9f, 0x52))
  const P2 := Block(Word(0xac, 0x8d, 0xe1, 0x7e), Word(0x49, 0xf7, 0xc5, 0x11),
                    Word(0x76, 0x18, 0x99, 0x31), Word(0x62, 0xb1, 0x89, 0xe9))
  const P3 := Block(Word(0xc3, 0xe8, 0xd5, 0x9e), Word(0xc2, 0xe6, 0x2d, 0x52),
                    Word(0x49, 0xca, 0x27, 0x41), Word(0x65, 0x3c, 0xb7, 0xdd))
  const P4 := Block(Word(0x5d, 0x4a, 0xeb, 0xb1), Word(0x65, 0xe1, 0x41, 0xff),
                    Word(0x75, 0x9f, 0x66, 0x9e), Word(0x1e, 0x85, 0xcc, 0x45))
  const P5 := Block(Word(0x78, 0x06, 0xe4, 0x69), Word(0xf6, 0x88, 0x74, 0xc5),
                    Word(0x00, 0x4b, 0x5f, 0x4a), Word(0x04, 0x6b, 0xbc, 0xfa))
  const P6 := Block(Word(0x11, 0x0f, 0x93, 0xc9), Word(0xa6, 0x30, 0xcd, 0xd5),
                    Word(0x1f, 0x97, 0xd2, 0x20), Word(0x24, 0x13, 0x34, 0x5a))
  const P7 := Block(Word(0xe0, 0x54, 0x42, 0x8e), Word(0xf0, 0x88, 0xfe, 0xf9),
                    Word(0x79, 0x28, 0x24, 0x1c), Word(0xd3, 0xbe, 0x49, 0x9e))
  const P8 := Block(Word(0x57, 0x34, 0xf3, 0x8e), Word(0xa1, 0xca, 0x3d, 0xdd),
                    Word(0x10, 0x2e, 0x71, 0xf9), Word(0x5e, 0x1d, 0x5f, 0x97))
  const P9 := Block(Word(0x49, 0x03, 0x32, 0x5b), Word(0xe3, 0xe5, 0x00, 0xcc),
                    Word(0xcd, 0x52, 0xfb, 0xa4), Word(0x35, 0x4a, 0x39, 0xae))
  const P10 := Block(Word(0xcb, 0x8c, 0x50, 0x8e), Word(0x2c, 0x4f, 0x87, 0x88),
                     Word(0x06, 0x39, 0xdc, 0x89), Word(0x6d, 0x25, 0xec, 0x9d))
  const P11 := Block(Word(0xe7, 0xe0, 0xd2, 0x45), Word(0x7e, 0xd7, 0x3d, 0x23),
                     Word(0xd4, 0x81, 0x42, 0x40), Word(0x95, 0xaf, 0xdc, 0xa0))

  lemma Round1Layers()
    ensures Diffuse(Substitute(Block(Word(0xd4, 0x04, 0x85, 0x6f), Word(0x3d, 0x1e, 0xe3, 0xb2),
                                     Word(0x68, 0x4b, 0x0a, 0x08), Word(0x07, 0xa4, 0xd5, 0x09)), true))
         == Block(Word(0x7f, 0xc7, 0xf1, 0x2b), Word(0xef, 0xd0, 0xa0, 0x79),
                  Word(0x1d, 0xe8, 0x7f, 0xa9), Word(0x6b, 0x46, 0x9f, 0x52))
  {
    hide Diffuse;
    StepsDiffuse(Block(Word(0x48, 0x94, 0x67, 0xd9), Word(0x27, 0x59, 0x4d, 0xd5),
                       Word(0x45, 0x95, 0xa3, 0x50), Word(0xc5, 0xa9, 0xb5, 0x39)));
  }

  lemma Round1()
    ensures Diffuse(Substitute(Xor(PLAIN, E1), true)) == P1
  {
    hide Substitute, Diffuse;
    Round1Layers();
  }

  lemma Round2Layers()
    ensures Diffuse(Substitute(Block(Word(0x49, 0x5b, 0x94, 0xcf), Word(0x5e, 0xc7, 0xd7, 0xd2),
                                     Word(0x6c, 0xd2, 0x41, 0xb7), Word(0x0d, 0x47, 0x27, 0xa6)), false))
         == Block(Word(0xac, 0x8d, 0xe1, 0x7e), Word(0x49, 0xf7, 0xc5, 0x11),
                  Word(0x76, 0x18, 0x99, 0x31), Word(0x62, 0xb1, 0x89, 0xe9))
  {
    hide Diffuse;
    StepsDiffuse(Block(Word(0xa4, 0xe2, 0x22, 0xda), Word(0x9d, 0x5b, 0x0e, 0xa2),
                       Word(0xb8, 0xc9, 0x83, 0x34), Word(0xf3, 0x58, 0xcc, 0xd4)));
  }

  lemma Round2()
    ensures Diffuse(Substitute(Xor(P1, E2), false)) == P2
  {
    hide Substitute, Diffuse;
    Round2Layers();
  }

  lemma Round3Layers()
    ensures Diffuse(Substitute(Block(Word(0xaf, 0xe5, 0x35, 0x8f), Word(0x74, 0xe3, 0x8c, 0x6a),
                                     Word(0x13, 0x31, 0x34, 0x4b), Word(0xaa, 0xb8, 0x6e, 0x39)), true))
         == Block(Word(0xc3, 0xe8, 0xd5, 0x9e), Word(0xc2, 0xe6, 0x2d, 0x52),
                  Word(0x49, 0xca, 0x27, 0x41), Word(0x65, 0x3c, 0xb7, 0xdd))
  {
    hide Diffuse;
    StepsDiffuse(Block(Word(0x79, 0x5a, 0xd9, 0x9a), Word(0x92, 0x33, 0xf0, 0x0a),
                       Word(0x7d, 0x73, 0x28, 0xc3), Word(0xac, 0x70, 0x45, 0xaa)));
  }

  lemma Round3()
    ensures Diffuse(Substitute(Xor(P2, E3), true)) == P3
  {
    hide Substitute, Diffuse;
    Round3Layers();
  }

  lemma Round4Layers()
    ensures Diffuse(Substitute(Block(Word(0x05, 0xac, 0x80, 0xb5), Word(0x96, 0x7c, 0x0b, 0x6d),
                                     Word(0xf1, 0x1a, 0x92, 0x48), Word(0x63, 0x1e, 0x29, 0x31)), false))
         == Block(Word(0x5d, 0x4a, 0xeb, 0xb1), Word(0x65, 0xe1, 0x41, 0xff),
                  Word(0x75, 0x9f, 0x66, 0x9e), Word(0x1e, 0x85, 0xcc, 0x45))
  {
    hide Diffuse;
    StepsDiffuse(Block(Word(0x36, 0x44, 0xcd, 0xf2), Word(0x35, 0xee, 0x2b, 0xca),
                       Word(0x2b, 0xfb, 0x4f, 0x8d), Word(0x00, 0xc4, 0xa5, 0x73)));
  }

  lemma Round4()
    ensures Diffuse(Substitute(Xor(P3, E4), false)) == P4
  {
    hide Substitute, Diffuse;
    Round4Layers();
  }

  lemma Round5Layers()
    ensures Diffuse(Substitute(Block(Word(0x02, 0xd6, 0xa8, 0xf8), Word(0x34, 0x13, 0x93, 0x10),
                                     Word(0x41, 0xb8, 0xe1, 0x2f), Word(0xb9, 0x04, 0xb5, 0x09)), true))
         == Block(Word(0x78, 0x06, 0xe4, 0x69), Word(0xf6, 0x88, 0x74, 0xc5),
                  Word(0x00, 0x4b, 0x5f, 0x4a), Word(0x04, 0x6b, 0xbc, 0xfa))
  {
    hide Diffuse;
    StepsDiffuse(Block(Word(0x77, 0x1c, 0x6f, 0xf7), Word(0x18, 0xcb, 0x22, 0x3e),
                       Word(0x83, 0x70, 0xe0, 0x4d), Word(0x56, 0x94, 0xd2, 0x39)));
  }

  lemma Round5()
    ensures Diffuse(Substitute(Xor(P4, E5), true)) == P5
  {
    hide Substitute, Diffuse;
    Round5Layers();
  }

  lemma Round6Layers()
    ensures Diffuse(Substitute(Block(Word(0xd7, 0xec, 0xc8, 0x65), Word(0x11, 0x95, 0xc2, 0x1b),
                                     Word(0x42, 0xef, 0x2b, 0x2b), Word(0xf0, 0x59, 0x80, 0xae)), false))
         == Block(Word(0x11, 0x0f, 0x93, 0xc9), Word(0xa6, 0x30, 0xcd, 0xd5),
                  Word(0x1f, 0x97, 0xd2, 0x20), Word(0x24, 0x13, 0x34, 0x5a))
  {
    hide Diffuse;
    StepsDiffuse(Block(Word(0x0d, 0x80, 0xe8, 0x21), Word(0xe3, 0x4b, 0x25, 0x03),
                       Word(0xf6, 0xd3, 0xf1, 0xae), Word(0x17, 0x1e, 0xcd, 0x9d)));
  }

  lemma Round6()
    ensures Diffuse(Substitute(Xor(P5, E6), false)) == P6
  {
    hide Substitute, Diffuse;
    Round6Layers();
  }

  lemma Round7Layers()
    ensures Diffuse(Substitute(Block(Word(0x23, 0x4d, 0x15, 0x12), Word(0xe2, 0x8a, 0x80, 0x63),
                                     Word(0xdb, 0xdd, 0x11, 0x26), Word(0xd6, 0xbb, 0x7f, 0x76)), true))
         == Block(Word(0xe0, 0x54, 0x42, 0x8e), Word(0xf0, 0x88, 0xfe, 0xf9),
                  Word(0x79, 0x28, 0x24, 0x1c), Word(0xd3, 0xbe, 0x49, 0x9e))
  {
    hide Diffuse;
    StepsDiffuse(Block(Word(0x26, 0x2f, 0x2f, 0x5e), Word(0x98, 0xf1, 0x3a, 0x2c),
                       Word(0xb9, 0x44, 0xe3, 0x77), Word(0xf6, 0x8a, 0x6b, 0xad)));
  }

  lemma Round7()
    ensures Diffuse(Substitute(Xor(P6, E7), true)) == P7
  {
    hide Substitute, Diffuse;
    Round7Layers();
  }

  lemma Round8Layers()
    ensures Diffuse(Substitute(Block(Word(0x9f, 0xcb, 0xeb, 0xbb), Word(0x84, 0x50, 0xbc, 0x40),
                                     Word(0x69, 0x32, 0x7c, 0x1a), Word(0xe4, 0xcf, 0xa2, 0xe5)), false))
         == Block(Word(0x57, 0x34, 0xf3, 0x8e), Word(0xa1, 0xca, 0x3d, 0xdd),
                  Word(0x10, 0x2e, 0x71, 0xf9), Word(0x5e, 0x1d, 0x5f, 0x97))
  {
    hide Diffuse;
    StepsDiffuse(Block(Word(0x6e, 0x13, 0xe9, 0x8a), Word(0x4f, 0x8c, 0x65, 0x2d),
                       Word(0xe4, 0x6c, 0x10, 0x2e), Word(0xae, 0x45, 0x3a, 0x5a)));
  }

  lemma Round8()
    ensures Diffuse(Substitute(Xor(P7, E8), false)) == P8
  {
    hide Substitute, Diffuse;
    Round8Layers();
  }

  lemma Round9Layers()
    ensures Diffuse(Substitute(Block(Word(0xfd, 0x8d, 0x36, 0xf9), Word(0x90, 0x36, 0xef, 0xce),
                                     Word(0xbd, 0x78, 0x06, 0xbc), Word(0xd1, 0xd2, 0xb9, 0x43)), true))
         == Block(Word(0x49, 0x03, 0x32, 0x5b), Word(0xe3, 0xe5, 0x00, 0xcc),
                  Word(0xcd, 0x52, 0xfb, 0xa4), Word(0x35, 0x4a, 0x39, 0xae))
  {
    hide Diffuse;
    StepsDiffuse(Block(Word(0x54, 0x1f, 0x24, 0x4c), Word(0x60, 0x85, 0x61, 0x4e),
                       Word(0x7a, 0x07, 0xa5, 0x18), Word(0x3e, 0xa2, 0xdb, 0xaf)));
  }

  lemma Round9()
    ensures Diffuse(Substitute(Xor(P8, E9), true)) == P9
  {
    hide Substitute, Diffuse;
    Round9Layers();
  }

  lemma Round10Layers()
    ensures Diffuse(Substitute(Block(Word(0x66, 0x47, 0x11, 0xe0), Word(0xe5, 0xa3, 0x5a, 0x76),
                                     Word(0x17, 0x04, 0x6f, 0x05), Word(0xab, 0xf2, 0xbd, 0xf7)), false))
         == Block(Word(0xcb, 0x8c, 0x50, 0x8e), Word(0x2c, 0x4f, 0x87, 0x88),
                  Word(0x06, 0x39, 0xdc, 0x89), Word(0x6d, 0x25, 0xec, 0x9d))
  {
    hide Diffuse;
    StepsDiffuse(Block(Word(0xd3, 0x58, 0x82, 0x90), Word(0x2a, 0xba, 0xbe, 0x42),
                       Word(0x87, 0x87, 0xa8, 0xc2), Word(0x0e, 0xb5, 0x7a, 0xf8)));
  }

  lemma Round10()
    ensures Diffuse(Substitute(Xor(P9, E10), false)) == P10
  {
    hide Substitute, Diffuse;
    Round10Layers();
  }

  lemma Round11Layers()
    ensures Diffuse(Substitute(Block(Word(0x54, 0x0b, 0x22, 0x0e), Word(0xa3, 0x12, 0xdf, 0x85),
                                     Word(0x87, 0x37, 0x24, 0x54), Word(0xc1, 0x36, 0x47, 0x76)), true))
         == Block(Word(0xe7, 0xe0, 0xd2, 0x45), Word(0x7e, 0xd7, 0x3d, 0x23),
                  Word(0xd4, 0x81, 0x42, 0x40), Word(0x95, 0xaf, 0xdc, 0xa0))
  {
    hide Diffuse;
    StepsDiffuse(Block(Word(0x20, 0x46, 0x94, 0x62), Word(0x0a, 0x64, 0xef, 0x36),
                       Word(0x17, 0xe4, 0xa6, 0x02), Word(0x78, 0x85, 0x16, 0xad)));
  }

  lemma Round11()
    ensures Diffuse(Substitute(Xor(P10, E11), true)) == P11
  {
    hide Substitute, Diffuse;
    Round11Layers();
  }

  lemma LastSubstituted()
    ensures Substitute(Block(Word(0x61, 0x64, 0x46, 0x2f), Word(0x6b, 0x8c, 0xda, 0x5d),
                             Word(0x2c, 0x91, 0x36, 0x08), Word(0xd2, 0x4c, 0x83, 0x0d)), false)
         == Block(Word(0xd8, 0x12, 0x5a, 0xbb), Word(0x05, 0x82, 0x57, 0xa4),
                  Word(0x42, 0x47, 0x05, 0x62), Word(0x7f, 0x35, 0xec, 0x4d))
  {
  }

  lemma LastRound()
    ensures Xor(Substitute(Xor(P11, E12), false), E13) == CIPHER
  {
    hide Substitute;
    LastSubstituted();
  }

  lemma AfterMore(rk: seq<Block>, x: Block, i: nat, p: Block, q: Block)
    requires 0 < i <= |rk| && After(rk, x, i - 1) == p && Diffuse(Substitute(Xor(p, rk[i - 1]), i % 2 == 1)) == q
    ensures After(rk, x, i) == q
  {
  }

  lemma FirstHalf()
    ensures After(EK, PLAIN, 6) == P6
  {
    hide After, Diffuse, Substitute, Xor;
    Start(EK, PLAIN);
    Round1();
    AfterMore(EK, PLAIN, 1, PLAIN, P1);
    Round2();
    AfterMore(EK, PLAIN, 2, P1, P2);
    Round3();
    AfterMore(EK, PLAIN, 3, P2, P3);
    Round4();
    AfterMore(EK, PLAIN, 4, P3, P4);
    Round5();
    AfterMore(EK, PLAIN, 5, P4, P5);
    Round6();
    AfterMore(EK, PLAIN, 6, P5, P6);
  }

  lemma KnownStates()
    ensures After(EK, PLAIN, 11) == P11
  {
    hide After, Diffuse, Substitute, Xor;
    FirstHalf();
    Round7();
    AfterMore(EK, PLAIN, 7, P6, P7);
    Round8();
    AfterMore(EK, PLAIN, 8, P7, P8);
    Round9();
    AfterMore(EK, PLAIN, 9, P8, P9);
    Round10();
    AfterMore(EK, PLAIN, 10, P9, P10);
    Round11();
    AfterMore(EK, PLAIN, 11, P10, P11);
  }

  lemma Start(rk: seq<Block>, x: Block)
    ensures After(rk, x, 0) == x
  {
  }

  /** The key and the plaintext give the ciphertext of the appendix. */
  lemma KnownAnswer()
    ensures Encrypts(KEY, 128, PLAIN, CIPHER)
  {
    hide After, Substitute, Xor, Schedule;
    KnownSchedule();
    KnownStates();
    LastRound();
  }

  /** And the ciphertext the plaintext. */
  lemma KnownBack()
    ensures Decrypts(KEY, 128, CIPHER, PLAIN)
  {
    hide Schedule, DecKeys, Cipher;
    KnownAnswer();
    KeyInverts(KEY, 128, PLAIN, CIPHER);
  }
}
