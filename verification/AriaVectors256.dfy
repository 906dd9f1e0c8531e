/** The example of appendix A.3 of RFC 5794, from the key to the ciphertext and back. */
module AriaVectors256 {
  import opened Aria
  import opened AriaKeys
  import V = AriaVectors

  const KEY: seq<bv8> := [0x00, 0x01, 0x02, 0x03, 0x04, 0x05, 0x06, 0x07,
                          0x08, 0x09, 0x0a, 0x0b, 0x0c, 0x0d, 0x0e, 0x0f,
                          0x10, 0x11, 0x12, 0x13, 0x14, 0x15, 0x16, 0x17,
                          0x18, 0x19, 0x1a, 0x1b, 0x1c, 0x1d, 0x1e, 0x1f]
  const PLAIN := Block(Word(0x00, 0x11, 0x22, 0x33), Word(0x44, 0x55, 0x66, 0x77),
                       Word(0x88, 0x99, 0xaa, 0xbb), Word(0xcc, 0xdd, 0xee, 0xff))
  const CIPHER := Block(Word(0xf9, 0x2b, 0xd7, 0xc7), Word(0x9f, 0xb7, 0x2e, 0x2f),
                        Word(0x2b, 0x8f, 0x80, 0xc1), Word(0x97, 0x2d, 0x24, 0xfc))

  // ---- the generators ----

  const RIGHT := Block(Word(0x10, 0x11, 0x12, 0x13), Word(0x14, 0x15, 0x16, 0x17),
                       Word(0x18, 0x19, 0x1a, 0x1b), Word(0x1c, 0x1d, 0x1e, 0x1f))
  const W0 := Block(Word(0x00, 0x01, 0x02, 0x03), Word(0x04, 0x05, 0x06, 0x07),
                    Word(0x08, 0x09, 0x0a, 0x0b), Word(0x0c, 0x0d, 0x0e, 0x0f))
  const W1 := Block(Word(0x15, 0x16, 0x9e, 0x6e), Word(0xc5, 0x4a, 0xaf, 0x0c),
                    Word(0x97, 0x54, 0x14, 0xfe), Word(0xad, 0x1c, 0x71, 0xf3))
  const W2 := Block(Word(0x90, 0xec, 0x92, 0xc2), Word(0xa8, 0x00, 0x40, 0x5a),
                    Word(0xf9, 0x93, 0x89, 0xe9), Word(0xc8, 0x8b, 0x4e, 0x62))
  const W3 := Block(Word(0xb6, 0x8c, 0xd7, 0xa1), Word(0xba, 0x16, 0xab, 0xee),
                    Word(0x90, 0x5f, 0x70, 0x09), Word(0xa8, 0xe9, 0x68, 0xa9))

  lemma FirstMixed()
    ensures Mixed(Block(Word(0x00, 0x01, 0x02, 0x03), Word(0x04, 0x05, 0x06, 0x07),
                        Word(0x08, 0x09, 0x0a, 0x0b), Word(0x0c, 0x0d, 0x0e, 0x0f)),
                  Block(Word(0xdb, 0x92, 0x37, 0x1d), Word(0x21, 0x26, 0xe9, 0x70),
                        Word(0x03, 0x24, 0x97, 0x75), Word(0x04, 0xe8, 0xc9, 0x0e)),
                  Block(Word(0x10, 0x11, 0x12, 0x13), Word(0x14, 0x15, 0x16, 0x17),
                        Word(0x18, 0x19, 0x1a, 0x1b), Word(0x1c, 0x1d, 0x1e, 0x1f)), true)
         == Block(Word(0x15, 0x16, 0x9e, 0x6e), Word(0xc5, 0x4a, 0xaf, 0x0c),
                  Word(0x97, 0x54, 0x14, 0xfe), Word(0xad, 0x1c, 0x71, 0xf3))
  {
    hide Diffuse;
    StepsDiffuse(Block(Word(0xb9, 0x57, 0xd9, 0xc4), Word(0x3f, 0x6b, 0x61, 0x19),
                       Word(0x2b, 0xdf, 0x75, 0xa8), Word(0x30, 0x5a, 0x31, 0x68)));
  }

  lemma FirstGenerator()
    ensures Mixed(W0, Constant(2), RIGHT, true) == W1
  {
    hide Mixed;
    FirstMixed();
  }

  lemma SecondMixed()
    ensures Mixed(Block(Word(0x15, 0x16, 0x9e, 0x6e), Word(0xc5, 0x4a, 0xaf, 0x0c),
                        Word(0x97, 0x54, 0x14, 0xfe), Word(0xad, 0x1c, 0x71, 0xf3)),
                  Block(Word(0x51, 0x7c, 0xc1, 0xb7), Word(0x27, 0x22, 0x0a, 0x94),
                        Word(0xfe, 0x13, 0xab, 0xe8), Word(0xfa, 0x9a, 0x6e, 0xe0)),
                  Block(Word(0x00, 0x01, 0x02, 0x03), Word(0x04, 0x05, 0x06, 0x07),
                        Word(0x08, 0x09, 0x0a, 0x0b), Word(0x0c, 0x0d, 0x0e, 0x0f)), false)
         == Block(Word(0x90, 0xec, 0x92, 0xc2), Word(0xa8, 0x00, 0x40, 0x5a),
                  Word(0xf9, 0x93, 0x89, 0xe9), Word(0xc8, 0x8b, 0x4e, 0x62))
  {
    hide Diffuse;
    StepsDiffuse(Block(Word(0x86, 0x0a, 0xcf, 0x6f), Word(0x3b, 0xb4, 0x06, 0x3b),
                       Word(0xe4, 0x58, 0x08, 0xbe), Word(0xda, 0xbe, 0xc0, 0xcb)));
  }

  lemma SecondGenerator()
    ensures Mixed(W1, Constant(3), W0, false) == W2
  {
    hide Mixed;
    SecondMixed();
  }

  lemma ThirdMixed()
    ensures Mixed(Block(Word(0x90, 0xec, 0x92, 0xc2), Word(0xa8, 0x00, 0x40, 0x5a),
                        Word(0xf9, 0x93, 0x89, 0xe9), Word(0xc8, 0x8b, 0x4e, 0x62)),
                  Block(Word(0x6d, 0xb1, 0x4a, 0xcc), Word(0x9e, 0x21, 0xc8, 0x20),
                        Word(0xff, 0x28, 0xb1, 0xd5), Word(0xef, 0x5d, 0xe2, 0xb0)),
                  Block(Word(0x15, 0x16, 0x9e, 0x6e), Word(0xc5, 0x4a, 0xaf, 0x0c),
                        Word(0x97, 0x54, 0x14, 0xfe), Word(0xad, 0x1c, 0x71, 0xf3)), true)
         == Block(Word(0xb6, 0x8c, 0xd7, 0xa1), Word(0xba, 0x16, 0xab, 0xee),
                  Word(0x90, 0x5f, 0x70, 0x09), Word(0xa8, 0xe9, 0x68, 0xa9))
  {
    hide Diffuse;
    StepsDiffuse(Block(Word(0x54, 0xa4, 0x2d, 0x62), Word(0x05, 0x06, 0x97, 0x51),
                       Word(0x6f, 0x8a, 0x76, 0x0c), Word(0xcc, 0x1c, 0xaa, 0xc9)));
  }

  lemma ThirdGenerator()
    ensures Mixed(W2, Constant(4), W1, true) == W3
  {
    hide Mixed;
    ThirdMixed();
  }

  lemma KeyWords()
    ensures KeyLeft(KEY) == W0 && KeyRight(KEY, 256) == RIGHT
  {
  }

  lemma KnownGenerators()
    ensures Generators(KEY, 256) == [W0, W1, W2, W3]
  {
    hide Mixed, Constant, KeyLeft, KeyRight;
    KeyWords();
    FirstGenerator();
    SecondGenerator();
    ThirdGenerator();
  }

  // ---- the round keys ----

  const E1 := Block(Word(0x8e, 0x3f, 0x60, 0xa1), Word(0xd7, 0xc8, 0xde, 0xae),
                    Word(0x5d, 0xe8, 0x98, 0xe1), Word(0x8e, 0x92, 0xdb, 0xac))
  const E2 := Block(Word(0x7c, 0xda, 0xcc, 0x73), Word(0x57, 0x12, 0xfa, 0x0c),
                    Word(0x9f, 0x5f, 0x4b, 0xcc), Word(0xdc, 0x21, 0x48, 0xe2))
  const E3 := Block(Word(0xbd, 0xf9, 0xa4, 0x13), Word(0x32, 0xf4, 0x77, 0x18),
                    Word(0x2c, 0xee, 0x5b, 0xe2), Word(0x26, 0x8a, 0x7b, 0x7f))
  const E4 := Block(Word(0x17, 0x4d, 0x37, 0xa1), Word(0x9a, 0x56, 0xcb, 0x6e),
                    Word(0x30, 0x9f, 0x91, 0x08), Word(0x89, 0xa8, 0x09, 0x28))
  const E5 := Block(Word(0x5a, 0x39, 0xe1, 0xe5), Word(0x2e, 0x28, 0x3a, 0xda),
                    Word(0x82, 0x9c, 0x54, 0x12), Word(0x22, 0xa5, 0x27, 0xf2))
  const E6 := Block(Word(0x84, 0x00, 0x02, 0xab), Word(0xe4, 0x93, 0x8a, 0x89),
                    Word(0xc7, 0x54, 0x94, 0x4b), Word(0x5e, 0x3b, 0x62, 0x20))
  const E7 := Block(Word(0xc1, 0x3e, 0x43, 0x91), Word(0xc5, 0x19, 0xef, 0x19),
                    Word(0x8d, 0xbe, 0xde, 0x34), Word(0xe8, 0x35, 0xae, 0x71))
  const E8 := Block(Word(0xae, 0x96, 0xcb, 0xbf), Word(0xba, 0x14, 0xaf, 0xe8),
                    Word(0x98, 0x55, 0x7c, 0x07), Word(0xb8, 0xfb, 0x7c, 0xbf))
  const E9 := Block(Word(0x92, 0xeb, 0x80, 0x9c), Word(0xd1, 0xa6, 0x88, 0x39),
                    Word(0x6a, 0xab, 0xd9, 0xc6), Word(0xd4, 0xa4, 0x5b, 0xee))
  const E10 := Block(Word(0x4a, 0x24, 0xef, 0x53), Word(0xfc, 0x5b, 0xc6, 0xc0),
                     Word(0xc5, 0x49, 0x86, 0xa6), Word(0xf8, 0x1c, 0x79, 0xf8))
  const E11 := Block(Word(0x42, 0xe7, 0x7c, 0xc3), Word(0x9d, 0x1d, 0x6d, 0x4f),
                     Word(0xcf, 0x42, 0x13, 0x1d), Word(0xff, 0xc9, 0x9b, 0x1f))
  const E12 := Block(Word(0x57, 0x8d, 0xf6, 0xe0), Word(0xdb, 0x97, 0x0a, 0x2f),
                     Word(0x70, 0x5f, 0x50, 0x49), Word(0xc8, 0x69, 0xc8, 0x69))
  const E13 := Block(Word(0x62, 0xa4, 0x55, 0x85), Word(0x4f, 0xaf, 0x0c, 0x78),
                     Word(0x5e, 0x87, 0x32, 0xf2), Word(0x86, 0x86, 0x41, 0x38))
  const E14 := Block(Word(0x41, 0x16, 0xbe, 0x43), Word(0xb9, 0x83, 0x6b, 0xf8),
                     Word(0x73, 0x11, 0xb3, 0xcf), Word(0xe5, 0x6a, 0x38, 0x92))
  const E15 := Block(Word(0x4d, 0xe7, 0xc7, 0x35), Word(0xe0, 0x2f, 0xf8, 0x5e),
                     Word(0x2d, 0xe7, 0x3d, 0xbd), Word(0x13, 0xcd, 0x25, 0xb2))
  const E16 := Block(Word(0x34, 0x8e, 0x54, 0xa2), Word(0x3e, 0x12, 0x2e, 0xeb),
                     Word(0x16, 0x59, 0xf7, 0x0e), Word(0x28, 0xe9, 0xe9, 0xa8))
  const E17 := Block(Word(0xf3, 0x77, 0x28, 0x56), Word(0x7c, 0x61, 0xbc, 0xa7),
                     Word(0xaf, 0xfc, 0x62, 0xe8), Word(0x83, 0x95, 0xa6, 0xbb))

  lemma Key1()
    ensures Xor(Block(Word(0x00, 0x01, 0x02, 0x03), Word(0x04, 0x05, 0x06, 0x07),
                      Word(0x08, 0x09, 0x0a, 0x0b), Word(0x0c, 0x0d, 0x0e, 0x0f)),
                Rotated(Block(Word(0x15, 0x16, 0x9e, 0x6e), Word(0xc5, 0x4a, 0xaf, 0x0c),
                              Word(0x97, 0x54, 0x14, 0xfe), Word(0xad, 0x1c, 0x71, 0xf3)), 109))
         == Block(Word(0x8e, 0x3f, 0x60, 0xa1), Word(0xd7, 0xc8, 0xde, 0xae),
                  Word(0x5d, 0xe8, 0x98, 0xe1), Word(0x8e, 0x92, 0xdb, 0xac))
  {
  }

  lemma Key2()
    ensures Xor(Block(Word(0x15, 0x16, 0x9e, 0x6e), Word(0xc5, 0x4a, 0xaf, 0x0c),
                      Word(0x97, 0x54, 0x14, 0xfe), Word(0xad, 0x1c, 0x71, 0xf3)),
                Rotated(Block(Word(0x90, 0xec, 0x92, 0xc2), Word(0xa8, 0x00, 0x40, 0x5a),
                              Word(0xf9, 0x93, 0x89, 0xe9), Word(0xc8, 0x8b, 0x4e, 0x62)), 109))
         == Block(Word(0x7c, 0xda, 0xcc, 0x73), Word(0x57, 0x12, 0xfa, 0x0c),
                  Word(0x9f, 0x5f, 0x4b, 0xcc), Word(0xdc, 0x21, 0x48, 0xe2))
  {
  }

  lemma Key3()
    ensures Xor(Block(Word(0x90, 0xec, 0x92, 0xc2), Word(0xa8, 0x00, 0x40, 0x5a),
                      Word(0xf9, 0x93, 0x89, 0xe9), Word(0xc8, 0x8b, 0x4e, 0x62)),
                Rotated(Block(Word(0xb6, 0x8c, 0xd7, 0xa1), Word(0xba, 0x16, 0xab, 0xee),
                              Word(0x90, 0x5f, 0x70, 0x09), Word(0xa8, 0xe9, 0x68, 0xa9)), 109))
         == Block(Word(0xbd, 0xf9, 0xa4, 0x13), Word(0x32, 0xf4, 0x77, 0x18),
                  Word(0x2c, 0xee, 0x5b, 0xe2), Word(0x26, 0x8a, 0x7b, 0x7f))
  {
  }

  lemma Key4()
    ensures Xor(Block(Word(0xb6, 0x8c, 0xd7, 0xa1), Word(0xba, 0x16, 0xab, 0xee),
                      Word(0x90, 0x5f, 0x70, 0x09), Word(0xa8, 0xe9, 0x68, 0xa9)),
                Rotated(Block(Word(0x00, 0x01, 0x02, 0x03), Word(0x04, 0x05, 0x06, 0x07),
                              Word(0x08, 0x09, 0x0a, 0x0b), Word(0x0c, 0x0d, 0x0e, 0x0f)), 109))
         == Block(Word(0x17, 0x4d, 0x37, 0xa1), Word(0x9a, 0x56, 0xcb, 0x6e),
                  Word(0x30, 0x9f, 0x91, 0x08), Word(0x89, 0xa8, 0x09, 0x28))
  {
  }

  lemma Key5()
    ensures Xor(Block(Word(0x00, 0x01, 0x02, 0x03), Word(0x04, 0x05, 0x06, 0x07),
                      Word(0x08, 0x09, 0x0a, 0x0b), Word(0x0c, 0x0d, 0x0e, 0x0f)),
                Rotated(Block(Word(0x15, 0x16, 0x9e, 0x6e), Word(0xc5, 0x4a, 0xaf, 0x0c),
                              Word(0x97, 0x54, 0x14, 0xfe), Word(0xad, 0x1c, 0x71, 0xf3)), 97))
         == Block(Word(0x5a, 0x39, 0xe1, 0xe5), Word(0x2e, 0x28, 0x3a, 0xda),
                  Word(0x82, 0x9c, 0x54, 0x12), Word(0x22, 0xa5, 0x27, 0xf2))
  {
  }

  lemma Key6()
    ensures Xor(Block(Word(0x15, 0x16, 0x9e, 0x6e), Word(0xc5, 0x4a, 0xaf, 0x0c),
                      Word(0x97, 0x54, 0x14, 0xfe), Word(0xad, 0x1c, 0x71, 0xf3)),
                Rotated(Block(Word(0x90, 0xec, 0x92, 0xc2), Word(0xa8, 0x00, 0x40, 0x5a),
                              Word(0xf9, 0x93, 0x89, 0xe9), Word(0xc8, 0x8b, 0x4e, 0x62)), 97))
         == Block(Word(0x84, 0x00, 0x02, 0xab), Word(0xe4, 0x93, 0x8a, 0x89),
                  Word(0xc7, 0x54, 0x94, 0x4b), Word(0x5e, 0x3b, 0x62, 0x20))
  {
  }

  lemma Key7()
    ensures Xor(Block(Word(0x90, 0xec, 0x92, 0xc2), Word(0xa8, 0x00, 0x40, 0x5a),
                      Word(0xf9, 0x93, 0x89, 0xe9), Word(0xc8, 0x8b, 0x4e, 0x62)),
                Rotated(Block(Word(0xb6, 0x8c, 0xd7, 0xa1), Word(0xba, 0x16, 0xab, 0xee),
                              Word(0x90, 0x5f, 0x70, 0x09), Word(0xa8, 0xe9, 0x68, 0xa9)), 97))
         == Block(Word(0xc1, 0x3e, 0x43, 0x91), Word(0xc5, 0x19, 0xef, 0x19),
                  Word(0x8d, 0xbe, 0xde, 0x34), Word(0xe8, 0x35, 0xae, 0x71))
  {
  }

  lemma Key8()
    ensures Xor(Block(Word(0xb6, 0x8c, 0xd7, 0xa1), Word(0xba, 0x16, 0xab, 0xee),
                      Word(0x90, 0x5f, 0x70, 0x09), Word(0xa8, 0xe9, 0x68, 0xa9)),
                Rotated(Block(Word(0x00, 0x01, 0x02, 0x03), Word(0x04, 0x05, 0x06, 0x07),
                              Word(0x08, 0x09, 0x0a, 0x0b), Word(0x0c, 0x0d, 0x0e, 0x0f)), 97))
         == Block(Word(0xae, 0x96, 0xcb, 0xbf), Word(0xba, 0x14, 0xaf, 0xe8),
                  Word(0x98, 0x55, 0x7c, 0x07), Word(0xb8, 0xfb, 0x7c, 0xbf))
  {
  }

  lemma Key9()
    ensures Xor(Block(Word(0x00, 0x01, 0x02, 0x03), Word(0x04, 0x05, 0x06, 0x07),
                      Word(0x08, 0x09, 0x0a, 0x0b), Word(0x0c, 0x0d, 0x0e, 0x0f)),
                Rotated(Block(Word(0x15, 0x16, 0x9e, 0x6e), Word(0xc5, 0x4a, 0xaf, 0x0c),
                              Word(0x97, 0x54, 0x14, 0xfe), Word(0xad, 0x1c, 0x71, 0xf3)), 61))
         == Block(Word(0x92, 0xeb, 0x80, 0x9c), Word(0xd1, 0xa6, 0x88, 0x39),
                  Word(0x6a, 0xab, 0xd9, 0xc6), Word(0xd4, 0xa4, 0x5b, 0xee))
  {
  }

  lemma Key10()
    ensures Xor(Block(Word(0x15, 0x16, 0x9e, 0x6e), Word(0xc5, 0x4a, 0xaf, 0x0c),
                      Word(0x97, 0x54, 0x14, 0xfe), Word(0xad, 0x1c, 0x71, 0xf3)),
                Rotated(Block(Word(0x90, 0xec, 0x92, 0xc2), Word(0xa8, 0x00, 0x40, 0x5a),
                              Word(0xf9, 0x93, 0x89, 0xe9), Word(0xc8, 0x8b, 0x4e, 0x62)), 61))
         == Block(Word(0x4a, 0x24, 0xef, 0x53), Word(0xfc, 0x5b, 0xc6, 0xc0),
                  Word(0xc5, 0x49, 0x86, 0xa6), Word(0xf8, 0x1c, 0x79, 0xf8))
  {
  }

  lemma Key11()
    ensures Xor(Block(Word(0x90, 0xec, 0x92, 0xc2), Word(0xa8, 0x00, 0x40, 0x5a),
                      Word(0xf9, 0x93, 0x89, 0xe9), Word(0xc8, 0x8b, 0x4e, 0x62)),
                Rotated(Block(Word(0xb6, 0x8c, 0xd7, 0xa1), Word(0xba, 0x16, 0xab, 0xee),
                              Word(0x90, 0x5f, 0x70, 0x09), Word(0xa8, 0xe9, 0x68, 0xa9)), 61))
         == Block(Word(0x42, 0xe7, 0x7c, 0xc3), Word(0x9d, 0x1d, 0x6d, 0x4f),
                  Word(0xcf, 0x42, 0x13, 0x1d), Word(0xff, 0xc9, 0x9b, 0x1f))
  {
  }

  lemma Key12()
    ensures Xor(Block(Word(0xb6, 0x8c, 0xd7, 0xa1), Word(0xba, 0x16, 0xab, 0xee),
                      Word(0x90, 0x5f, 0x70, 0x09), Word(0xa8, 0xe9, 0x68, 0xa9)),
                Rotated(Block(Word(0x00, 0x01, 0x02, 0x03), Word(0x04, 0x05, 0x06, 0x07),
                              Word(0x08, 0x09, 0x0a, 0x0b), Word(0x0c, 0x0d, 0x0e, 0x0f)), 61))
         == Block(Word(0x57, 0x8d, 0xf6, 0xe0), Word(0xdb, 0x97, 0x0a, 0x2f),
                  Word(0x70, 0x5f, 0x50, 0x49), Word(0xc8, 0x69, 0xc8, 0x69))
  {
  }

  lemma Key13()
    ensures Xor(Block(Word(0x00, 0x01, 0x02, 0x03), Word(0x04, 0x05, 0x06, 0x07),
                      Word(0x08, 0x09, 0x0a, 0x0b), Word(0x0c, 0x0d, 0x0e, 0x0f)),
                Rotated(Block(Word(0x15, 0x16, 0x9e, 0x6e), Word(0xc5, 0x4a, 0xaf, 0x0c),
                              Word(0x97, 0x54, 0x14, 0xfe), Word(0xad, 0x1c, 0x71, 0xf3)), 31))
         == Block(Word(0x62, 0xa4, 0x55, 0x85), Word(0x4f, 0xaf, 0x0c, 0x78),
                  Word(0x5e, 0x87, 0x32, 0xf2), Word(0x86, 0x86, 0x41, 0x38))
  {
  }

  lemma Key14()
    ensures Xor(Block(Word(0x15, 0x16, 0x9e, 0x6e), Word(0xc5, 0x4a, 0xaf, 0x0c),
                      Word(0x97, 0x54, 0x14, 0xfe), Word(0xad, 0x1c, 0x71, 0xf3)),
                Rotated(Block(Word(0x90, 0xec, 0x92, 0xc2), Word(0xa8, 0x00, 0x40, 0x5a),
                              Word(0xf9, 0x93, 0x89, 0xe9), Word(0xc8, 0x8b, 0x4e, 0x62)), 31))
         == Block(Word(0x41, 0x16, 0xbe, 0x43), Word(0xb9, 0x83, 0x6b, 0xf8),
                  Word(0x73, 0x11, 0xb3, 0xcf), Word(0xe5, 0x6a, 0x38, 0x92))
  {
  }

  lemma Key15()
    ensures Xor(Block(Word(0x90, 0xec, 0x92, 0xc2), Word(0xa8, 0x00, 0x40, 0x5a),
                      Word(0xf9, 0x93, 0x89, 0xe9), Word(0xc8, 0x8b, 0x4e, 0x62)),
                Rotated(Block(Word(0xb6, 0x8c, 0xd7, 0xa1), Word(0xba, 0x16, 0xab, 0xee),
                              Word(0x90, 0x5f, 0x70, 0x09), Word(0xa8, 0xe9, 0x68, 0xa9)), 31))
         == Block(Word(0x4d, 0xe7, 0xc7, 0x35), Word(0xe0, 0x2f, 0xf8, 0x5e),
                  Word(0x2d, 0xe7, 0x3d, 0xbd), Word(0x13, 0xcd, 0x25, 0xb2))
  {
  }

  lemma Key16()
    ensures Xor(Block(Word(0xb6, 0x8c, 0xd7, 0xa1), Word(0xba, 0x16, 0xab, 0xee),
                      Word(0x90, 0x5f, 0x70, 0x09), Word(0xa8, 0xe9, 0x68, 0xa9)),
                Rotated(Block(Word(0x00, 0x01, 0x02, 0x03), Word(0x04, 0x05, 0x06, 0x07),
                              Word(0x08, 0x09, 0x0a, 0x0b), Word(0x0c, 0x0d, 0x0e, 0x0f)), 31))
         == Block(Word(0x34, 0x8e, 0x54, 0xa2), Word(0x3e, 0x12, 0x2e, 0xeb),
                  Word(0x16, 0x59, 0xf7, 0x0e), Word(0x28, 0xe9, 0xe9, 0xa8))
  {
  }

  lemma Key17()
    ensures Xor(Block(Word(0x00, 0x01, 0x02, 0x03), Word(0x04, 0x05, 0x06, 0x07),
                      Word(0x08, 0x09, 0x0a, 0x0b), Word(0x0c, 0x0d, 0x0e, 0x0f)),
                Rotated(Block(Word(0x15, 0x16, 0x9e, 0x6e), Word(0xc5, 0x4a, 0xaf, 0x0c),
                              Word(0x97, 0x54, 0x14, 0xfe), Word(0xad, 0x1c, 0x71, 0xf3)), 19))
         == Block(Word(0xf3, 0x77, 0x28, 0x56), Word(0x7c, 0x61, 0xbc, 0xa7),
                  Word(0xaf, 0xfc, 0x62, 0xe8), Word(0x83, 0x95, 0xa6, 0xbb))
  {
  }

  const EK := [E1, E2, E3, E4, E5, E6, E7, E8, E9, E10, E11, E12, E13, E14, E15, E16, E17]

  lemma KnownSchedule()
    ensures Schedule(KEY, 256) == EK
  {
    hide Generators, Xor, Rotated;
    KnownGenerators();
    Key1();
    Key2();
    Key3();
    Key4();
    Key5();
    Key6();
    Key7();
    Key8();
    Key9();
    Key10();
    Key11();
    Key12();
    Key13();
    Key14();
    Key15();
    Key16();
    Key17();
  }

  // ---- the rounds ----

  const P1 := Block(Word(0x64, 0x73, 0x96, 0x17), Word(0xaa, 0x29, 0x7f, 0xe4),
                    Word(0x6a, 0x51, 0x46, 0x91), Word(0x92, 0x09, 0xe9, 0x15))
  const P2 := Block(Word(0xf0, 0x1c, 0x2f, 0xdb), Word(0x0b, 0xcc, 0xbf, 0x37),
                    Word(0xa8, 0xbf, 0x5f, 0x2e), Word(0x9c, 0x03, 0x4f, 0xfb))
  const P3 := Block(Word(0xc7, 0xee, 0xbc, 0xa8), Word(0xe1, 0xe6, 0xfd, 0x2e),
                    Word(0x73, 0xe9, 0xf5, 0x7d), Word(0xe1, 0x19, 0xd4, 0x55))
  const P4 := Block(Word(0x6c, 0x7c, 0xe7, 0x1d), Word(0xfc, 0x22, 0x06, 0x18),
                    Word(0x61, 0x54, 0x6c, 0x85), Word(0xa3, 0x0d, 0xbf, 0xf1))
  const P5 := Block(Word(0x97, 0xf9, 0x63, 0x95), Word(0x37, 0x37, 0x94, 0x23),
                    Word(0x69, 0x36, 0x21, 0x39), Word(0x2e, 0x83, 0xef, 0xc9))
  const P6 := Block(Word(0x7a, 0x4c, 0x3f, 0x38), Word(0x7e, 0xd4, 0x03, 0x16),
                    Word(0x70, 0x60, 0x95, 0xea), Word(0x3c, 0xe8, 0x3f, 0x9d))
  const P7 := Block(Word(0xea, 0xb8, 0x98, 0x89), Word(0xe8, 0x39, 0x8c, 0x8a),
                    Word(0x38, 0xfa, 0x34, 0x0c), Word(0x98, 0x2d, 0xe8, 0x7d))
  const P8 := Block(Word(0x9e, 0x1d, 0x65, 0x12), Word(0x59, 0x0a, 0x73, 0x00),
                    Word(0x35, 0xca, 0xf4, 0xa4), Word(0x31, 0xd2, 0x93, 0xbb))
  const P9 := Block(Word(0x75, 0xcb, 0x1b, 0xab), Word(0x78, 0xf6, 0x98, 0xe5),
                    Word(0xbf, 0xb0, 0x77, 0xc2), Word(0x06, 0x29, 0x93, 0xb2))
  const P10 := Block(Word(0x20, 0x3c, 0x97, 0x4b), Word(0x18, 0xb7, 0x43, 0x4d),
                     Word(0xe8, 0x55, 0x95, 0x4e), Word(0xb2, 0xd0, 0x58, 0xb1))
  const P11 := Block(Word(0xa5, 0xb3, 0x15, 0xcd), Word(0x24, 0x20, 0x6c, 0x9c),
                     Word(0x2e, 0xd5, 0x04, 0x9b), Word(0xfb, 0xc5, 0x11, 0xa3))
  const P12 := Block(Word(0xc6, 0xba, 0x5f, 0x72), Word(0x01, 0xf9, 0x59, 0x6a),
                     Word(0x1d, 0x2d, 0x3a, 0xae), Word(0x33, 0xe4, 0xfa, 0x54))
  const P13 := Block(Word(0xfb, 0xfe, 0x7a, 0x26), Word(0xaf, 0x3b, 0xe9, 0xcb),
                     Word(0x0f, 0xa8, 0x45, 0x2a), Word(0xf1, 0xbb, 0x35, 0x85))
  const P14 := Block(Word(0x69, 0x71, 0xd8, 0xa1), Word(0x21, 0x81, 0x8c, 0x61),
                     Word(0x3e, 0x03, 0x51, 0x08), Word(0xd4, 0x45, 0xb4, 0x4d))
  const P15 := Block(Word(0x53, 0x1d, 0x29, 0xe5), Word(0x2f, 0x0e, 0x5a, 0xb9),
                     Word(0x49, 0x8e, 0xcc, 0x4d), Word(0xd2, 0x99, 0xf8, 0xf0))

  lemma Round1Layers()
    ensures Diffuse(Substitute(Block(Word(0x8e, 0x2e, 0x42, 0x92), Word(0x93, 0x9d, 0xb8, 0xd9),
                                     Word(0xd5, 0x71, 0x32, 0x5a), Word(0x42, 0x4f, 0x35, 0x53)), true))
         == Block(Word(0x64, 0x73, 0x96, 0x17), Word(0xaa, 0x29, 0x7f, 0xe4),
                  Word(0x6a, 0x51, 0x46, 0x91), Word(0x92, 0x09, 0xe9, 0x15))
  {
    hide Diffuse;
    StepsDiffuse(Block(Word(0x19, 0xe7, 0xf6, 0x9e), Word(0xdc, 0x25, 0x9a, 0x7b),
                       Word(0x03, 0xab, 0xa1, 0xe5), Word(0x2c, 0xcd, 0xd9, 0x5f)));
  }

  lemma Round1()
    ensures Diffuse(Substitute(Xor(PLAIN, E1), true)) == P1
  {
    hide Substitute, Diffuse;
    Round1Layers();
  }

  lemma Round2Layers()
    ensures Diffuse(Substitute(Block(Word(0x18, 0xa9, 0x5a, 0x64), Word(0xfd, 0x3b, 0x85, 0xe8),
                                     Word(0xf5, 0x0e, 0x0d, 0x5d), Word(0x4e, 0x28, 0xa1, 0xf7)), false))
         == Block(Word(0xf0, 0x1c, 0x2f, 0xdb), Word(0x0b, 0xcc, 0xbf, 0x37),
                  Word(0xa8, 0xbf, 0x5f, 0x2e), Word(0x9c, 0x03, 0x4f, 0xfb))
  {
    hide Diffuse;
    StepsDiffuse(Block(Word(0x34, 0xa4, 0xbe, 0x36), Word(0x21, 0x98, 0x97, 0x61),
                       Word(0x77, 0x62, 0xd7, 0xa4), Word(0xb6, 0x57, 0x32, 0xf8)));
  }

  lemma Round2()
    ensures Diffuse(Substitute(Xor(P1, E2), false)) == P2
  {
    hide Substitute, Diffuse;
    Round2Layers();
  }

  lemma Round3Layers()
    ensures Diffuse(Substitute(Block(Word(0x4d, 0xe5, 0x8b, 0xc8), Word(0x39, 0x38, 0xc8, 0x2f),
                                     Word(0x84, 0x51, 0x04, 0xcc), Word(0xba, 0x89, 0x34, 0x84)), true))
         == Block(Word(0xc7, 0xee, 0xbc, 0xa8), Word(0xe1, 0xe6, 0xfd, 0x2e),
                  Word(0x73, 0xe9, 0xf5, 0x7d), Word(0xe1, 0x19, 0xd4, 0x55))
  {
    hide Diffuse;
    StepsDiffuse(Block(Word(0xe3, 0x5a, 0xce, 0x4a), Word(0x12, 0x3a, 0xb1, 0x4d),
                       Word(0x5f, 0x7a, 0x30, 0x07), Word(0xf4, 0x23, 0x28, 0x86)));
  }

  lemma Round3()
    ensures Diffuse(Substitute(Xor(P2, E3), true)) == P3
  {
    hide Substitute, Diffuse;
    Round3Layers();
  }

  lemma Round4Layers()
    ensures Diffuse(Substitute(Block(Word(0xd0, 0xa3, 0x8b, 0x09), Word(0x7b, 0xb0, 0x36, 0x40),
                                     Word(0x43, 0x76, 0x64, 0x75), Word(0x68, 0xb1, 0xdd, 0x7d)), false))
         == Block(Word(0x6c, 0x7c, 0xe7, 0x1d), Word(0xfc, 0x22, 0x06, 0x18),
                  Word(0x61, 0x54, 0x6c, 0x85), Word(0xa3, 0x0d, 0xbf, 0xf1))
  {
    hide Diffuse;
    StepsDiffuse(Block(Word(0x60, 0xba, 0x3d, 0x0d), Word(0x03, 0xeb, 0x05, 0x2d),
                       Word(0x64, 0xad, 0x43, 0x56), Word(0xf7, 0x6f, 0xc1, 0xb9)));
  }

  lemma Round4()
    ensures Diffuse(Substitute(Xor(P3, E4), false)) == P4
  {
    hide Substitute, Diffuse;
    Round4Layers();
  }

  lemma Round5Layers()
    ensures Diffuse(Substitute(Block(Word(0x36, 0x45, 0x06, 0xf8), Word(0xd2, 0x0a, 0x3c, 0xc2),
                                     Word(0xe3, 0xc8, 0x38, 0x97), Word(0x81, 0xa8, 0x98, 0x03)), true))
         == Block(Word(0x97, 0xf9, 0x63, 0x95), Word(0x37, 0x37, 0x94, 0x23),
                  Word(0x69, 0x36, 0x21, 0x39), Word(0x2e, 0x83, 0xef, 0xc9))
  {
    hide Diffuse;
    StepsDiffuse(Block(Word(0x05, 0xcf, 0xa5, 0xf7), Word(0xb5, 0x6a, 0x6d, 0x05),
                       Word(0x11, 0x35, 0x76, 0x15), Word(0x0c, 0x7e, 0xe2, 0x1b)));
  }

  lemma Round5()
    ensures Diffuse(Substitute(Xor(P4, E5), true)) == P5
  {
    hide Substitute, Diffuse;
    Round5Layers();
  }

  lemma Round6Layers()
    ensures Diffuse(Substitute(Block(Word(0x13, 0xf9, 0x61, 0x3e), Word(0xd3, 0xa4, 0x1e, 0xaa),
                                     Word(0xae, 0x62, 0xb5, 0x72), Word(0x70, 0xb8, 0x8d, 0xe9)), false))
         == Block(Word(0x7a, 0x4c, 0x3f, 0x38), Word(0x7e, 0xd4, 0x03, 0x16),
                  Word(0x70, 0x60, 0x95, 0xea), Word(0x3c, 0xe8, 0x3f, 0x9d))
  {
    hide Diffuse;
    StepsDiffuse(Block(Word(0x82, 0x4c, 0xef, 0x10), Word(0xa9, 0x5d, 0x72, 0x39),
                       Word(0xbe, 0x08, 0xd5, 0x0c), Word(0xd0, 0x5a, 0x5d, 0xa1)));
  }

  lemma Round6()
    ensures Diffuse(Substitute(Xor(P5, E6), false)) == P6
  {
    hide Substitute, Diffuse;
    Round6Layers();
  }

  lemma Round7Layers()
    ensures Diffuse(Substitute(Block(Word(0xbb, 0x72, 0x7c, 0xa9), Word(0xbb, 0xcd, 0xec, 0x0f),
                                     Word(0xfd, 0xde, 0x4b, 0xde), Word(0xd4, 0xdd, 0x91, 0xec)), true))
         == Block(Word(0xea, 0xb8, 0x98, 0x89), Word(0xe8, 0x39, 0x8c, 0x8a),
                  Word(0x38, 0xfa, 0x34, 0x0c), Word(0x98, 0x2d, 0xe8, 0x7d))
  {
    hide Diffuse;
    StepsDiffuse(Block(Word(0xea, 0x0c, 0x01, 0xa4), Word(0xea, 0x82, 0x83, 0x3c),
                       Word(0x54, 0x9b, 0xcc, 0xf9), Word(0x48, 0x44, 0xac, 0x80)));
  }

  lemma Round7()
    ensures Diffuse(Substitute(Xor(P6, E7), true)) == P7
  {
    hide Substitute, Diffuse;
    Round7Layers();
  }

  lemma Round8Layers()
    ensures Diffuse(Substitute(Block(Word(0x44, 0x2e, 0x53, 0x36), Word(0x52, 0x2d, 0x23, 0x62),
                                     Word(0xa0, 0xaf, 0x48, 0x0b), Word(0x20, 0xd6, 0x94, 0xc2)), false))
         == Block(Word(0x9e, 0x1d, 0x65, 0x12), Word(0x59, 0x0a, 0x73, 0x00),
                  Word(0x35, 0xca, 0xf4, 0xa4), Word(0x31, 0xd2, 0x93, 0xbb))
  {
    hide Diffuse;
    StepsDiffuse(Block(Word(0x86, 0x1a, 0xed, 0x85), Word(0x48, 0x40, 0x26, 0x0e),
                       Word(0x47, 0xfc, 0x52, 0x46), Word(0x54, 0xec, 0x22, 0x51)));
  }

  lemma Round8()
    ensures Diffuse(Substitute(Xor(P7, E8), false)) == P8
  {
    hide Substitute, Diffuse;
    Round8Layers();
  }

  lemma Round9Layers()
    ensures Diffuse(Substitute(Block(Word(0x0c, 0xf6, 0xe5, 0x8e), Word(0x88, 0xac, 0xfb, 0x39),
                                     Word(0x5f, 0x61, 0x2d, 0x62), Word(0xe5, 0x76, 0xc8, 0x55)), true))
         == Block(Word(0x75, 0xcb, 0x1b, 0xab), Word(0x78, 0xf6, 0x98, 0xe5),
                  Word(0xbf, 0xb0, 0x77, 0xc2), Word(0x06, 0x29, 0x93, 0xb2))
  {
    hide Diffuse;
    StepsDiffuse(Block(Word(0xfe, 0xb3, 0x2a, 0x69), Word(0xc4, 0xfe, 0x63, 0xaa),
                       Word(0xcf, 0x87, 0xfa, 0x08), Word(0xd9, 0x42, 0xb1, 0x24)));
  }

  lemma Round9()
    ensures Diffuse(Substitute(Xor(P8, E9), true)) == P9
  {
    hide Substitute, Diffuse;
    Round9Layers();
  }

  lemma Round10Layers()
    ensures Diffuse(Substitute(Block(Word(0x3f, 0xef, 0xf4, 0xf8), Word(0x84, 0xad, 0x5e, 0x25),
                                     Word(0x7a, 0xf9, 0xf1, 0x64), Word(0xfe, 0x35, 0xea, 0x4a)), false))
         == Block(Word(0x20, 0x3c, 0x97, 0x4b), Word(0x18, 0xb7, 0x43, 0x4d),
                  Word(0xe8, 0x55, 0x95, 0x4e), Word(0xb2, 0xd0, 0x58, 0xb1))
  {
    hide Diffuse;
    StepsDiffuse(Block(Word(0x25, 0xd3, 0xbf, 0x89), Word(0x4f, 0x46, 0x58, 0xf0),
                       Word(0xbd, 0x4c, 0xa1, 0x36), Word(0x0c, 0xc8, 0x87, 0xc8)));
  }

  lemma Round10()
    ensures Diffuse(Substitute(Xor(P9, E10), false)) == P10
  {
    hide Substitute, Diffuse;
    Round10Layers();
  }

  lemma Round11Layers()
    ensures Diffuse(Substitute(Block(Word(0x62, 0xdb, 0xeb, 0x88), Word(0x85, 0xaa, 0x2e, 0x02),
                                     Word(0x27, 0x17, 0x86, 0x53), Word(0x4d, 0x19, 0xc3, 0xae)), true))
         == Block(Word(0xa5, 0xb3, 0x15, 0xcd), Word(0x24, 0x20, 0x6c, 0x9c),
                  Word(0x2e, 0xd5, 0x04, 0x9b), Word(0xfb, 0xc5, 0x11, 0xa3))
  {
    hide Diffuse;
    StepsDiffuse(Block(Word(0xaa, 0x0a, 0x3c, 0x52), Word(0x97, 0x39, 0xc3, 0x99),
                       Word(0xcc, 0x2b, 0xdc, 0x5f), Word(0xe3, 0x77, 0x33, 0x2b)));
  }

  lemma Round11()
    ensures Diffuse(Substitute(Xor(P10, E11), true)) == P11
  {
    hide Substitute, Diffuse;
    Round11Layers();
  }

  lemma Round12Layers()
    ensures Diffuse(Substitute(Block(Word(0xf2, 0x3e, 0xe3, 0x2d), Word(0xff, 0xb7, 0x66, 0xb3),
                                     Word(0x5e, 0x8a, 0x54, 0xd2), Word(0x33, 0xac, 0xd9, 0xca)), false))
         == Block(Word(0xc6, 0xba, 0x5f, 0x72), Word(0x01, 0xf9, 0x59, 0x6a),
                  Word(0x1d, 0x2d, 0x3a, 0xae), Word(0x33, 0xe4, 0xfa, 0x54))
  {
    hide Diffuse;
    StepsDiffuse(Block(Word(0x04, 0x9b, 0x11, 0xdf), Word(0x7d, 0x70, 0x33, 0xf5),
                       Word(0x9d, 0xbb, 0x20, 0xa2), Word(0x66, 0x44, 0x35, 0x6e)));
  }

  lemma Round12()
    ensures Diffuse(Substitute(Xor(P11, E12), false)) == P12
  {
    hide Substitute, Diffuse;
    Round12Layers();
  }

  lemma Round13Layers()
    ensures Diffuse(Substitute(Block(Word(0xa4, 0x1e, 0x0a, 0xf7), Word(0x4e, 0x56, 0x55, 0x12),
                                     Word(0x43, 0xaa, 0x08, 0x5c), Word(0xb5, 0x62, 0xbb, 0x6c)), true))
         == Block(Word(0xfb, 0xfe, 0x7a, 0x26), Word(0xaf, 0x3b, 0xe9, 0xcb),
                  Word(0x0f, 0xa8, 0x45, 0x2a), Word(0xf1, 0xbb, 0x35, 0x85))
  {
    hide Diffuse;
    StepsDiffuse(Block(Word(0x49, 0x59, 0xa3, 0xea), Word(0x2f, 0x2a, 0xed, 0x5e),
                       Word(0x1a, 0x39, 0xbf, 0x54), Word(0xd5, 0x0e, 0xfe, 0xdf)));
  }

  lemma Round13()
    ensures Diffuse(Substitute(Xor(P12, E13), true)) == P13
  {
    hide Substitute, Diffuse;
    Round13Layers();
  }

  lemma Round14Layers()
    ensures Diffuse(Substitute(Block(Word(0xba, 0xe8, 0xc4, 0x65), Word(0x16, 0xb8, 0x82, 0x33),
                                     Word(0x7c, 0xb9, 0xf6, 0xe5), Word(0x14, 0xd1, 0x0d, 0x17)), false))
         == Block(Word(0x69, 0x71, 0xd8, 0xa1), Word(0x21, 0x81, 0x8c, 0x61),
                  Word(0x3e, 0x03, 0x51, 0x08), Word(0xd4, 0x45, 0xb4, 0x4d))
  {
    hide Diffuse;
    StepsDiffuse(Block(Word(0xc0, 0x9c, 0x1c, 0x21), Word(0xff, 0x5a, 0x13, 0xfb),
                       Word(0x01, 0x7d, 0x42, 0x5a), Word(0x9b, 0x0f, 0xd7, 0x2b)));
  }

  lemma Round14()
    ensures Diffuse(Substitute(Xor(P13, E14), false)) == P14
  {
    hide Substitute, Diffuse;
    Round14Layers();
  }

  lemma Round15Layers()
    ensures Diffuse(Substitute(Block(Word(0x24, 0x96, 0x1f, 0x94), Word(0xc1, 0xae, 0x74, 0x3f),
                                     Word(0x13, 0xe4, 0x6c, 0xb5), Word(0xc7, 0x88, 0x91, 0xff)), true))
         == Block(Word(0x53, 0x1d, 0x29, 0xe5), Word(0x2f, 0x0e, 0x5a, 0xb9),
                  Word(0x49, 0x8e, 0xcc, 0x4d), Word(0xd2, 0x99, 0xf8, 0xf0))
  {
    hide Diffuse;
    StepsDiffuse(Block(Word(0x36, 0x7b, 0xcb, 0x04), Word(0x78, 0x9d, 0xca, 0xed),
                       Word(0x7d, 0x7d, 0xb8, 0xfe), Word(0xc6, 0x49, 0xac, 0x60)));
  }

  lemma Round15()
    ensures Diffuse(Substitute(Xor(P14, E15), true)) == P15
  {
    hide Substitute, Diffuse;
    Round15Layers();
  }

  lemma LastSubstituted()
    ensures Substitute(Block(Word(0x67, 0x93, 0x7d, 0x47), Word(0x11, 0x1c, 0x74, 0x52),
                             Word(0x5f, 0xd7, 0x3b, 0x43), Word(0xfa, 0x70, 0x11, 0x58)), false)
         == Block(Word(0x0a, 0x5c, 0xff, 0x91), Word(0xe3, 0xd6, 0x92, 0x88),
                  Word(0x84, 0x73, 0xe2, 0x29), Word(0x14, 0xb8, 0x82, 0x47))
  {
  }

  lemma LastRound()
    ensures Xor(Substitute(Xor(P15, E16), false), E17) == CIPHER
  {
    hide Substitute;
    LastSubstituted();
  }

  lemma FirstHalf()
    ensures After(EK, PLAIN, 8) == P8
  {
    hide After, Diffuse, Substitute, Xor;
    V.Start(EK, PLAIN);
    Round1();
    V.AfterMore(EK, PLAIN, 1, PLAIN, P1);
    Round2();
    V.AfterMore(EK, PLAIN, 2, P1, P2);
    Round3();
    V.AfterMore(EK, PLAIN, 3, P2, P3);
    Round4();
    V.AfterMore(EK, PLAIN, 4, P3, P4);
    Round5();
    V.AfterMore(EK, PLAIN, 5, P4, P5);
    Round6();
    V.AfterMore(EK, PLAIN, 6, P5, P6);
    Round7();
    V.AfterMore(EK, PLAIN, 7, P6, P7);
    Round8();
    V.AfterMore(EK, PLAIN, 8, P7, P8);
  }

  lemma KnownStates()
    ensures After(EK, PLAIN, 15) == P15
  {
    hide After, Diffuse, Substitute, Xor;
    FirstHalf();
    Round9();
    V.AfterMore(EK, PLAIN, 9, P8, P9);
    Round10();
    V.AfterMore(EK, PLAIN, 10, P9, P10);
    Round11();
    V.AfterMore(EK, PLAIN, 11, P10, P11);
    Round12();
    V.AfterMore(EK, PLAIN, 12, P11, P12);
    Round13();
    V.AfterMore(EK, PLAIN, 13, P12, P13);
    Round14();
    V.AfterMore(EK, PLAIN, 14, P13, P14);
    Round15();
    V.AfterMore(EK, PLAIN, 15, P14, P15);
  }

  /** The key and the plaintext give the ciphertext of the appendix. */
  lemma KnownAnswer()
    ensures Encrypts(KEY, 256, PLAIN, CIPHER)
  {
    hide After, Substitute, Xor, Schedule;
    KnownSchedule();
    KnownStates();
    LastRound();
  }

  /** And the ciphertext the plaintext. */
  lemma KnownBack()
    ensures Decrypts(KEY, 256, CIPHER, PLAIN)
  {
    hide Schedule, DecKeys, Cipher;
    KnownAnswer();
    KeyInverts(KEY, 256, PLAIN, CIPHER);
  }
}
