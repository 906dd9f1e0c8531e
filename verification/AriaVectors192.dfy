/** The example of appendix A.2 of RFC 5794, from the key to the ciphertext and back. */
module AriaVectors192 {
  import opened Aria
  import opened AriaKeys
  import V = AriaVectors

  const KEY: seq<bv8> := [0x00, 0x01, 0x02, 0x03, 0x04, 0x05, 0x06, 0x07,
                          0x08, 0x09, 0x0a, 0x0b, 0x0c, 0x0d, 0x0e, 0x0f,
                          0x10, 0x11, 0x12, 0x13, 0x14, 0x15, 0x16, 0x17]
  const PLAIN := Block(Word(0x00, 0x11, 0x22, 0x33), Word(0x44, 0x55, 0x66, 0x77),
                       Word(0x88, 0x99, 0xaa, 0xbb), Word(0xcc, 0xdd, 0xee, 0xff))
  const CIPHER := Block(Word(0x26, 0x44, 0x9c, 0x18), Word(0x05, 0xdb, 0xe7, 0xaa),
                        Word(0x25, 0xa4, 0x68, 0xce), Word(0x26, 0x3a, 0x9e, 0x79))

  // ---- the generators ----

  const RIGHT := Block(Word(0x10, 0x11, 0x12, 0x13), Word(0x14, 0x15, 0x16, 0x17),
                       Word(0x00, 0x00, 0x00, 0x00), Word(0x00, 0x00, 0x00, 0x00))
  const W0 := Block(Word(0x00, 0x01, 0x02, 0x03), Word(0x04, 0x05, 0x06, 0x07),
                    Word(0x08, 0x09, 0x0a, 0x0b), Word(0x0c, 0x0d, 0x0e, 0x0f))
  const W1 := Block(Word(0xe4, 0x8c, 0x52, 0x30), Word(0x1e, 0x91, 0xd9, 0x91),
                    Word(0xb6, 0x49, 0xed, 0x7b), Word(0xb7, 0xcd, 0xe8, 0xad))
  const W2 := Block(Word(0xa3, 0x56, 0xea, 0x6c), Word(0xaf, 0xe4, 0x86, 0x97),
                    Word(0x97, 0xa1, 0xb4, 0xee), Word(0xa5, 0x6d, 0x38, 0xcc))
  const W3 := Block(Word(0xe1, 0x89, 0x8f, 0x2e), Word(0x0e, 0x62, 0x6c, 0xcf),
                    Word(0x1f, 0x58, 0xbd, 0x50), Word(0x71, 0x3c, 0x93, 0xbb))

  lemma FirstMixed()
    ensures Mixed(Block(Word(0x00, 0x01, 0x02, 0x03), Word(0x04, 0x05, 0x06, 0x07),
                        Word(0x08, 0x09, 0x0a, 0x0b), Word(0x0c, 0x0d, 0x0e, 0x0f)),
                  Block(Word(0x6d, 0xb1, 0x4a, 0xcc), Word(0x9e, 0x21, 0xc8, 0x20),
                        Word(0xff, 0x28, 0xb1, 0xd5), Word(0xef, 0x5d, 0xe2, 0xb0)),
                  Block(Word(0x10, 0x11, 0x12, 0x13), Word(0x14, 0x15, 0x16, 0x17),
                        Word(0x00, 0x00, 0x00, 0x00), Word(0x00, 0x00, 0x00, 0x00)), true)
         == Block(Word(0xe4, 0x8c, 0x52, 0x30), Word(0x1e, 0x91, 0xd9, 0x91),
                  Word(0xb6, 0x49, 0xed, 0x7b), Word(0xb7, 0xcd, 0xe8, 0xad))
  {
    hide Diffuse;
    StepsDiffuse(Block(Word(0x3c, 0xa7, 0xd4, 0x45), Word(0xb8, 0x55, 0xec, 0xc6),
                       Word(0x68, 0x06, 0xfe, 0xf9), Word(0x11, 0x08, 0x83, 0xa5)));
  }

  lemma FirstGenerator()
    ensures Mixed(W0, Constant(1), RIGHT, true) == W1
  {
    hide Mixed;
    FirstMixed();
  }

  lemma SecondMixed()
    ensures Mixed(Block(Word(0xe4, 0x8c, 0x52, 0x30), Word(0x1e, 0x91, 0xd9, 0x91),
                        Word(0xb6, 0x49, 0xed, 0x7b), Word(0xb7, 0xcd, 0xe8, 0xad)),
                  Block(Word(0xdb, 0x92, 0x37, 0x1d), Word(0x21, 0x26, 0xe9, 0x70),
                        Word(0x03, 0x24, 0x97, 0x75), Word(0x04, 0xe8, 0xc9, 0x0e)),
                  Block(Word(0x00, 0x01, 0x02, 0x03), Word(0x04, 0x05, 0x06, 0x07),
                        Word(0x08, 0x09, 0x0a, 0x0b), Word(0x0c, 0x0d, 0x0e, 0x0f)), false)
         == Block(Word(0xa3, 0x56, 0xea, 0x6c), Word(0xaf, 0xe4, 0x86, 0x97),
                  Word(0x97, 0xa1, 0xb4, 0xee), Word(0xa5, 0x6d, 0x38, 0xcc))
  {
    hide Diffuse;
    StepsDiffuse(Block(Word(0x25, 0xc4, 0x4d, 0xdf), Word(0x25, 0x70, 0x04, 0x0b),
                       Word(0xd2, 0xef, 0xda, 0x8b), Word(0x4b, 0x9d, 0xfd, 0x17)));
  }

  lemma SecondGenerator()
    ensures Mixed(W1, Constant(2), W0, false) == W2
  {
    hide Mixed;
    SecondMixed();
  }

  lemma ThirdMixed()
    ensures Mixed(Block(Word(0xa3, 0x56, 0xea, 0x6c), Word(0xaf, 0xe4, 0x86, 0x97),
                        Word(0x97, 0xa1, 0xb4, 0xee), Word(0xa5, 0x6d, 0x38, 0xcc)),
                  Block(Word(0x51, 0x7c, 0xc1, 0xb7), Word(0x27, 0x22, 0x0a, 0x94),
                        Word(0xfe, 0x13, 0xab, 0xe8), Word(0xfa, 0x9a, 0x6e, 0xe0)),
                  Block(Word(0xe4, 0x8c, 0x52, 0x30), Word(0x1e, 0x91, 0xd9, 0x91),
                        Word(0xb6, 0x49, 0xed, 0x7b), Word(0xb7, 0xcd, 0xe8, 0xad)), true)
         == Block(Word(0xe1, 0x89, 0x8f, 0x2e), Word(0x0e, 0x62, 0x6c, 0xcf),
                  Word(0x1f, 0x58, 0xbd, 0x50), Word(0x71, 0x3c, 0x93, 0xbb))
  {
    hide Diffuse;
    StepsDiffuse(Block(Word(0x89, 0x18, 0x0b, 0x59), Word(0xc4, 0x27, 0xf0, 0x1b),
                       Word(0xf9, 0xd0, 0xcb, 0x21), Word(0xcf, 0xf8, 0xb9, 0xd4)));
  }

  lemma ThirdGenerator()
    ensures Mixed(W2, Constant(3), W1, true) == W3
  {
    hide Mixed;
    ThirdMixed();
  }

  lemma KeyWords()
    ensures KeyLeft(KEY) == W0 && KeyRight(KEY, 192) == RIGHT
  {
  }

  lemma KnownGenerators()
    ensures Generators(KEY, 192) == [W0, W1, W2, W3]
  {
    hide Mixed, Constant, KeyLeft, KeyRight;
    KeyWords();
    FirstGenerator();
    SecondGenerator();
    ThirdGenerator();
  }

  // ---- the round keys ----

  const E1 := Block(Word(0xbd, 0x14, 0xbe, 0x92), Word(0x8e, 0x43, 0x05, 0xd5),
                    Word(0x33, 0x3b, 0x3c, 0xc2), Word(0x31, 0xa2, 0x78, 0xf6))
  const E2 := Block(Word(0x43, 0x95, 0xc6, 0x5a), Word(0xc3, 0xdc, 0x4c, 0x6d),
                    Word(0x26, 0x9b, 0x1f, 0x8f), Word(0x81, 0x50, 0x3c, 0x00))
  const E3 := Block(Word(0x31, 0x21, 0x96, 0x5d), Word(0x9e, 0x01, 0x47, 0x5b),
                    Word(0xda, 0x38, 0x57, 0x05), Word(0xb2, 0xc7, 0x36, 0xeb))
  const E4 := Block(Word(0x40, 0x48, 0x6f, 0x2e), Word(0x2e, 0x22, 0x0c, 0x4f),
                    Word(0xbf, 0x98, 0x5c, 0x51), Word(0x50, 0x7d, 0xf2, 0x3a))
  const E5 := Block(Word(0x6f, 0x9a, 0xd3, 0x58), Word(0xcd, 0x1d, 0xa2, 0x67),
                    Word(0x35, 0x2a, 0xb9, 0x28), Word(0x60, 0x9e, 0xd4, 0xf8))
  const E6 := Block(Word(0xae, 0x56, 0x23, 0xa9), Word(0x58, 0x3c, 0x0d, 0x48),
                    Word(0xe9, 0x80, 0xe0, 0x54), Word(0x98, 0x8e, 0x81, 0x70))
  const E7 := Block(Word(0x41, 0x2f, 0xcd, 0x1b), Word(0x6c, 0xf7, 0x98, 0xcb),
                    Word(0x8b, 0x65, 0x6d, 0x70), Word(0x9b, 0xdc, 0x42, 0x6c))
  const E8 := Block(Word(0xf9, 0x93, 0x93, 0x30), Word(0x0e, 0x60, 0x68, 0xc9),
                    Word(0x17, 0x52, 0xb1, 0x5e), Word(0x61, 0x2e, 0x87, 0xad))
  const E9 := Block(Word(0x36, 0xc8, 0x3f, 0xac), Word(0x72, 0xfc, 0xbb, 0x12),
                    Word(0xb4, 0x98, 0x80, 0x4d), Word(0x0f, 0xdf, 0x35, 0x3d))
  const E10 := Block(Word(0x16, 0x78, 0x64, 0xad), Word(0xca, 0x3c, 0x7e, 0x88),
                     Word(0x22, 0x23, 0x30, 0x36), Word(0x22, 0x31, 0x78, 0x7f))
  const E11 := Block(Word(0x40, 0xbd, 0xfd, 0xc6), Word(0xa1, 0xc3, 0x14, 0xe0),
                     Word(0xeb, 0x90, 0x85, 0x0b), Word(0x64, 0xa1, 0x75, 0x55))
  const E12 := Block(Word(0x00, 0x88, 0xae, 0x6f), Word(0x6f, 0xe3, 0xcd, 0x0e),
                     Word(0xff, 0x58, 0x9d, 0x10), Word(0x11, 0xbc, 0x33, 0x7b))
  const E13 := Block(Word(0x0f, 0x49, 0xee, 0xcb), Word(0xdf, 0x21, 0xf0, 0xba),
                     Word(0xd3, 0xef, 0xfe, 0x5d), Word(0xfe, 0x4b, 0x27, 0x17))
  const E14 := Block(Word(0xb3, 0x7e, 0x11, 0x7b), Word(0xd5, 0x41, 0x03, 0xe6),
                     Word(0xe4, 0xff, 0x71, 0x1d), Word(0xe6, 0x66, 0x9d, 0x9b))
  const E15 := Block(Word(0xa4, 0x67, 0xdc, 0x0b), Word(0x20, 0x48, 0xd8, 0x3f),
                     Word(0xaf, 0x3f, 0xfd, 0x33), Word(0x55, 0xa9, 0xff, 0x5b))

  lemma Key1()
    ensures Xor(Block(Word(0x00, 0x01, 0x02, 0x03), Word(0x04, 0x05, 0x06, 0x07),
                      Word(0x08, 0x09, 0x0a, 0x0b), Word(0x0c, 0x0d, 0x0e, 0x0f)),
                Rotated(Block(Word(0xe4, 0x8c, 0x52, 0x30), Word(0x1e, 0x91, 0xd9, 0x91),
                              Word(0xb6, 0x49, 0xed, 0x7b), Word(0xb7, 0xcd, 0xe8, 0xad)), 109))
         == Block(Word(0xbd, 0x14, 0xbe, 0x92), Word(0x8e, 0x43, 0x05, 0xd5),
                  Word(0x33, 0x3b, 0x3c, 0xc2), Word(0x31, 0xa2, 0x78, 0xf6))
  {
  }

  lemma Key2()
    ensures Xor(Block(Word(0xe4, 0x8c, 0x52, 0x30), Word(0x1e, 0x91, 0xd9, 0x91),
                      Word(0xb6, 0x49, 0xed, 0x7b), Word(0xb7, 0xcd, 0xe8, 0xad)),
                Rotated(Block(Word(0xa3, 0x56, 0xea, 0x6c), Word(0xaf, 0xe4, 0x86, 0x97),
                              Word(0x97, 0xa1, 0xb4, 0xee), Word(0xa5, 0x6d, 0x38, 0xcc)), 109))
         == Block(Word(0x43, 0x95, 0xc6, 0x5a), Word(0xc3, 0xdc, 0x4c, 0x6d),
                  Word(0x26, 0x9b, 0x1f, 0x8f), Word(0x81, 0x50, 0x3c, 0x00))
  {
  }

  lemma Key3()
    ensures Xor(Block(Word(0xa3, 0x56, 0xea, 0x6c), Word(0xaf, 0xe4, 0x86, 0x97),
                      Word(0x97, 0xa1, 0xb4, 0xee), Word(0xa5, 0x6d, 0x38, 0xcc)),
                Rotated(Block(Word(0xe1, 0x89, 0x8f, 0x2e), Word(0x0e, 0x62, 0x6c, 0xcf),
                              Word(0x1f, 0x58, 0xbd, 0x50), Word(0x71, 0x3c, 0x93, 0xbb)), 109))
         == Block(Word(0x31, 0x21, 0x96, 0x5d), Word(0x9e, 0x01, 0x47, 0x5b),
                  Word(0xda, 0x38, 0x57, 0x05), Word(0xb2, 0xc7, 0x36, 0xeb))
  {
  }

  lemma Key4()
    ensures Xor(Block(Word(0xe1, 0x89, 0x8f, 0x2e), Word(0x0e, 0x62, 0x6c, 0xcf),
                      Word(0x1f, 0x58, 0xbd, 0x50), Word(0x71, 0x3c, 0x93, 0xbb)),
                Rotated(Block(Word(0x00, 0x01, 0x02, 0x03), Word(0x04, 0x05, 0x06, 0x07),
                              Word(0x08, 0x09, 0x0a, 0x0b), Word(0x0c, 0x0d, 0x0e, 0x0f)), 109))
         == Block(Word(0x40, 0x48, 0x6f, 0x2e), Word(0x2e, 0x22, 0x0c, 0x4f),
                  Word(0xbf, 0x98, 0x5c, 0x51), Word(0x50, 0x7d, 0xf2, 0x3a))
  {
  }

  lemma Key5()
    ensures Xor(Block(Word(0x00, 0x01, 0x02, 0x03), Word(0x04, 0x05, 0x06, 0x07),
                      Word(0x08, 0x09, 0x0a, 0x0b), Word(0x0c, 0x0d, 0x0e, 0x0f)),
                Rotated(Block(Word(0xe4, 0x8c, 0x52, 0x30), Word(0x1e, 0x91, 0xd9, 0x91),
                              Word(0xb6, 0x49, 0xed, 0x7b), Word(0xb7, 0xcd, 0xe8, 0xad)), 97))
         == Block(Word(0x6f, 0x9a, 0xd3, 0x58), Word(0xcd, 0x1d, 0xa2, 0x67),
                  Word(0x35, 0x2a, 0xb9, 0x28), Word(0x60, 0x9e, 0xd4, 0xf8))
  {
  }

  lemma Key6()
    ensures Xor(Block(Word(0xe4, 0x8c, 0x52, 0x30), Word(0x1e, 0x91, 0xd9, 0x91),
                      Word(0xb6, 0x49, 0xed, 0x7b), Word(0xb7, 0xcd, 0xe8, 0xad)),
                Rotated(Block(Word(0xa3, 0x56, 0xea, 0x6c), Word(0xaf, 0xe4, 0x86, 0x97),
                              Word(0x97, 0xa1, 0xb4, 0xee), Word(0xa5, 0x6d, 0x38, 0xcc)), 97))
         == Block(Word(0xae, 0x56, 0x23, 0xa9), Word(0x58, 0x3c, 0x0d, 0x48),
                  Word(0xe9, 0x80, 0xe0, 0x54), Word(0x98, 0x8e, 0x81, 0x70))
  {
  }

  lemma Key7()
    ensures Xor(Block(Word(0xa3, 0x56, 0xea, 0x6c), Word(0xaf, 0xe4, 0x86, 0x97),
                      Word(0x97, 0xa1, 0xb4, 0xee), Word(0xa5, 0x6d, 0x38, 0xcc)),
                Rotated(Block(Word(0xe1, 0x89, 0x8f, 0x2e), Word(0x0e, 0x62, 0x6c, 0xcf),
                              Word(0x1f, 0x58, 0xbd, 0x50), Word(0x71, 0x3c, 0x93, 0xbb)), 97))
         == Block(Word(0x41, 0x2f, 0xcd, 0x1b), Word(0x6c, 0xf7, 0x98, 0xcb),
                  Word(0x8b, 0x65, 0x6d, 0x70), Word(0x9b, 0xdc, 0x42, 0x6c))
  {
  }

  lemma Key8()
    ensures Xor(Block(Word(0xe1, 0x89, 0x8f, 0x2e), Word(0x0e, 0x62, 0x6c, 0xcf),
                      Word(0x1f, 0x58, 0xbd, 0x50), Word(0x71, 0x3c, 0x93, 0xbb)),
                Rotated(Block(Word(0x00, 0x01, 0x02, 0x03), Word(0x04, 0x05, 0x06, 0x07),
                              Word(0x08, 0x09, 0x0a, 0x0b), Word(0x0c, 0x0d, 0x0e, 0x0f)), 97))
         == Block(Word(0xf9, 0x93, 0x93, 0x30), Word(0x0e, 0x60, 0x68, 0xc9),
                  Word(0x17, 0x52, 0xb1, 0x5e), Word(0x61, 0x2e, 0x87, 0xad))
  {
  }

  lemma Key9()
    ensures Xor(Block(Word(0x00, 0x01, 0x02, 0x03), Word(0x04, 0x05, 0x06, 0x07),
                      Word(0x08, 0x09, 0x0a, 0x0b), Word(0x0c, 0x0d, 0x0e, 0x0f)),
                Rotated(Block(Word(0xe4, 0x8c, 0x52, 0x30), Word(0x1e, 0x91, 0xd9, 0x91),
                              Word(0xb6, 0x49, 0xed, 0x7b), Word(0xb7, 0xcd, 0xe8, 0xad)), 61))
         == Block(Word(0x36, 0xc8, 0x3f, 0xac), Word(0x72, 0xfc, 0xbb, 0x12),
                  Word(0xb4, 0x98, 0x80, 0x4d), Word(0x0f, 0xdf, 0x35, 0x3d))
  {
  }

  lemma Key10()
    ensures Xor(Block(Word(0xe4, 0x8c, 0x52, 0x30), Word(0x1e, 0x91, 0xd9, 0x91),
                      Word(0xb6, 0x49, 0xed, 0x7b), Word(0xb7, 0xcd, 0xe8, 0xad)),
                Rotated(Block(Word(0xa3, 0x56, 0xea, 0x6c), Word(0xaf, 0xe4, 0x86, 0x97),
                              Word(0x97, 0xa1, 0xb4, 0xee), Word(0xa5, 0x6d, 0x38, 0xcc)), 61))
         == Block(Word(0x16, 0x78, 0x64, 0xad), Word(0xca, 0x3c, 0x7e, 0x88),
                  Word(0x22, 0x23, 0x30, 0x36), Word(0x22, 0x31, 0x78, 0x7f))
  {
  }

  lemma Key11()
    ensures Xor(Block(Word(0xa3, 0x56, 0xea, 0x6c), Word(0xaf, 0xe4, 0x86, 0x97),
                      Word(0x97, 0xa1, 0xb4, 0xee), Word(0xa5, 0x6d, 0x38, 0xcc)),
                Rotated(Block(Word(0xe1, 0x89, 0x8f, 0x2e), Word(0x0e, 0x62, 0x6c, 0xcf),
                              Word(0x1f, 0x58, 0xbd, 0x50), Word(0x71, 0x3c, 0x93, 0xbb)), 61))
         == Block(Word(0x40, 0xbd, 0xfd, 0xc6), Word(0xa1, 0xc3, 0x14, 0xe0),
                  Word(0xeb, 0x90, 0x85, 0x0b), Word(0x64, 0xa1, 0x75, 0x55))
  {
  }

  lemma Key12()
    ensures Xor(Block(Word(0xe1, 0x89, 0x8f, 0x2e), Word(0x0e, 0x62, 0x6c, 0xcf),
                      Word(0x1f, 0x58, 0xbd, 0x50), Word(0x71, 0x3c, 0x93, 0xbb)),
                Rotated(Block(Word(0x00, 0x01, 0x02, 0x03), Word(0x04, 0x05, 0x06, 0x07),
                              Word(0x08, 0x09, 0x0a, 0x0b), Word(0x0c, 0x0d, 0x0e, 0x0f)), 61))
         == Block(Word(0x00, 0x88, 0xae, 0x6f), Word(0x6f, 0xe3, 0xcd, 0x0e),
                  Word(0xff, 0x58, 0x9d, 0x10), Word(0x11, 0xbc, 0x33, 0x7b))
  {
  }

  lemma Key13()
    ensures Xor(Block(Word(0x00, 0x01, 0x02, 0x03), Word(0x04, 0x05, 0x06, 0x07),
                      Word(0x08, 0x09, 0x0a, 0x0b), Word(0x0c, 0x0d, 0x0e, 0x0f)),
                Rotated(Block(Word(0xe4, 0x8c, 0x52, 0x30), Word(0x1e, 0x91, 0xd9, 0x91),
                              Word(0xb6, 0x49, 0xed, 0x7b), Word(0xb7, 0xcd, 0xe8, 0xad)), 31))
         == Block(Word(0x0f, 0x49, 0xee, 0xcb), Word(0xdf, 0x21, 0xf0, 0xba),
                  Word(0xd3, 0xef, 0xfe, 0x5d), Word(0xfe, 0x4b, 0x27, 0x17))
  {
  }

  lemma Key14()
    ensures Xor(Block(Word(0xe4, 0x8c, 0x52, 0x30), Word(0x1e, 0x91, 0xd9, 0x91),
                      Word(0xb6, 0x49, 0xed, 0x7b), Word(0xb7, 0xcd, 0xe8, 0xad)),
                Rotated(Block(Word(0xa3, 0x56, 0xea, 0x6c), Word(0xaf, 0xe4, 0x86, 0x97),
                              Word(0x97, 0xa1, 0xb4, 0xee), Word(0xa5, 0x6d, 0x38, 0xcc)), 31))
         == Block(Word(0xb3, 0x7e, 0x11, 0x7b), Word(0xd5, 0x41, 0x03, 0xe6),
                  Word(0xe4, 0xff, 0x71, 0x1d), Word(0xe6, 0x66, 0x9d, 0x9b))
  {
  }

  lemma Key15()
    ensures Xor(Block(Word(0xa3, 0x56, 0xea, 0x6c), Word(0xaf, 0xe4, 0x86, 0x97),
                      Word(0x97, 0xa1, 0xb4, 0xee), Word(0xa5, 0x6d, 0x38, 0xcc)),
                Rotated(Block(Word(0xe1, 0x89, 0x8f, 0x2e), Word(0x0e, 0x62, 0x6c, 0xcf),
                              Word(0x1f, 0x58, 0xbd, 0x50), Word(0x71, 0x3c, 0x93, 0xbb)), 31))
         == Block(Word(0xa4, 0x67, 0xdc, 0x0b), Word(0x20, 0x48, 0xd8, 0x3f),
                  Word(0xaf, 0x3f, 0xfd, 0x33), Word(0x55, 0xa9, 0xff, 0x5b))
  {
  }

  const EK := [E1, E2, E3, E4, E5, E6, E7, E8, E9, E10, E11, E12, E13, E14, E15]

  lemma KnownSchedule()
    ensures Schedule(KEY, 192) == EK
  {
    hide Generators, Xor, Rotated;
    KnownGenerators();
    Key1();
    Key2();
    Key3();
    Key4();
    Key5();
    Key6();
    Key7();
    Key8();
    Key9();
    Key10();
    Key11();
    Key12();
    Key13();
    Key14();
    Key15();
  }

  // ---- the rounds ----

  const P1 := Block(Word(0xff, 0x0a, 0x53, 0xeb), Word(0x83, 0x9b, 0x68, 0x68),
                    Word(0x52, 0xda, 0xd8, 0xcf), Word(0x18, 0xde, 0x2c, 0xf2))
  const P2 := Block(Word(0xee, 0x41, 0x61, 0xaa), Word(0xc7, 0x8a, 0xe4, 0x77),
                    Word(0x50, 0xdf, 0xe6, 0x6a), Word(0xff, 0x08, 0x76, 0x3b))
  const P3 := Block(Word(0x75, 0x61, 0x9b, 0x22), Word(0x90, 0xbb, 0xf0, 0xfa),
                    Word(0x40, 0x17, 0xe4, 0xb1), Word(0xb5, 0x23, 0xa8, 0xc7))
  const P4 := Block(Word(0x9f, 0x1c, 0xc5, 0x5f), Word(0xa9, 0xd7, 0x58, 0x18),
                    Word(0xf4, 0x08, 0xc2, 0x25), Word(0x9e, 0xa6, 0x2d, 0x2b))
  const P5 := Block(Word(0x45, 0x4e, 0x7e, 0xfa), Word(0x19, 0x88, 0xf1, 0x18),
                    Word(0x2f, 0xa9, 0xa3, 0x16), Word(0xdd, 0xe0, 0xf8, 0x31))
  const P6 := Block(Word(0x88, 0xc3, 0x9b, 0xb2), Word(0x9e, 0x7a, 0x83, 0x33),
                    Word(0x49, 0x98, 0xa2, 0x19), Word(0x01, 0xab, 0xe9, 0x28))
  const P7 := Block(Word(0xde, 0xab, 0x06, 0x65), Word(0xaa, 0xcd, 0xe8, 0xaa),
                    Word(0xd1, 0xc1, 0x98, 0x6f), Word(0xf9, 0x96, 0x7c, 0x5e))
  const P8 := Block(Word(0x9d, 0x81, 0x12, 0xc9), Word(0x4f, 0x9e, 0x67, 0x11),
                    Word(0x18, 0x7b, 0x1a, 0x34), Word(0x48, 0x7a, 0xc5, 0xe5))
  const P9 := Block(Word(0x29, 0x7d, 0x76, 0x55), Word(0x3d, 0x4b, 0x98, 0x4f),
                    Word(0x3e, 0x8d, 0x4e, 0xd5), Word(0x24, 0x64, 0x45, 0x9d))
  const P10 := Block(Word(0xcd, 0x37, 0x2f, 0x09), Word(0x7e, 0xb2, 0x43, 0xc8),
                     Word(0xc0, 0xba, 0x6c, 0x39), Word(0xb5, 0xc7, 0xac, 0x23))
  const P11 := Block(Word(0x55, 0xf9, 0xa1, 0x9b), Word(0x5c, 0x91, 0xe0, 0x95),
                     Word(0x7b, 0x6a, 0x4f, 0x30), Word(0x49, 0xd7, 0xbc, 0x0c))
  const P12 := Block(Word(0xf0, 0xcf, 0x94, 0xf7), Word(0x40, 0x2d, 0x01, 0x30),
                     Word(0xff, 0x23, 0x05, 0x52), Word(0x45, 0xef, 0x68, 0xea))
  const P13 := Block(Word(0xa0, 0x15, 0x63, 0xf5), Word(0xea, 0x16, 0x26, 0xad),
                     Word(0x9a, 0xc1, 0xdc, 0xbf), Word(0x69, 0x31, 0x45, 0x6e))

  lemma Round1Layers()
    ensures Diffuse(Substitute(Block(Word(0xbd, 0x05, 0x9c, 0xa1), Word(0xca, 0x16, 0x63, 0xa2),
                                     Word(0xbb, 0xa2, 0x96, 0x79), Word(0xfd, 0x7f, 0x96, 0x09)), true))
         == Block(Word(0xff, 0x0a, 0x53, 0xeb), Word(0x83, 0x9b, 0x68, 0x68),
                  Word(0x52, 0xda, 0xd8, 0xcf), Word(0x18, 0xde, 0x2c, 0xf2))
  {
    hide Diffuse;
    StepsDiffuse(Block(Word(0x7a, 0xc2, 0x1c, 0xe9), Word(0x74, 0xbe, 0x00, 0xd2),
                       Word(0xea, 0xfd, 0x35, 0xbd), Word(0x54, 0x40, 0x35, 0x39)));
  }

  lemma Round1()
    ensures Diffuse(Substitute(Xor(PLAIN, E1), true)) == P1
  {
    hide Substitute, Diffuse;
    Round1Layers();
  }

  lemma Round2Layers()
    ensures Diffuse(Substitute(Block(Word(0xbc, 0x9f, 0x95, 0xb1), Word(0x40, 0x47, 0x24, 0x05),
                                     Word(0x74, 0x41, 0xc7, 0x40), Word(0x99, 0x8e, 0x10, 0xf2)), false))
         == Block(Word(0xee, 0x41, 0x61, 0xaa), Word(0xc7, 0x8a, 0xe4, 0x77),
                  Word(0x50, 0xdf, 0xe6, 0x6a), Word(0xff, 0x08, 0x76, 0x3b))
  {
    hide Diffuse;
    StepsDiffuse(Block(Word(0x78, 0xd7, 0x2a, 0xe1), Word(0x72, 0x58, 0x36, 0xc2),
                       Word(0xca, 0x22, 0xc6, 0x2d), Word(0xf9, 0x69, 0xca, 0xe0)));
  }

  lemma Round2()
    ensures Diffuse(Substitute(Xor(P1, E2), false)) == P2
  {
    hide Substitute, Diffuse;
    Round2Layers();
  }

  lemma Round3Layers()
    ensures Diffuse(Substitute(Block(Word(0xdf, 0x60, 0xf7, 0xf7), Word(0x59, 0x8b, 0xa3, 0x2c),
                                     Word(0x8a, 0xe7, 0xb1, 0x6f), Word(0x4d, 0xcf, 0x40, 0xd0)), true))
         == Block(Word(0x75, 0x61, 0x9b, 0x22), Word(0x90, 0xbb, 0xf0, 0xfa),
                  Word(0x40, 0x17, 0xe4, 0xb1), Word(0xb5, 0x23, 0xa8, 0xc7))
  {
    hide Diffuse;
    StepsDiffuse(Block(Word(0x9e, 0xff, 0x26, 0xea), Word(0xcb, 0x4f, 0x71, 0xd4),
                       Word(0x7e, 0xf3, 0x56, 0xd9), Word(0xe3, 0xda, 0x72, 0xb2)));
  }

  lemma Round3()
    ensures Diffuse(Substitute(Xor(P2, E3), true)) == P3
  {
    hide Substitute, Diffuse;
    Round3Layers();
  }

  lemma Round4Layers()
    ensures Diffuse(Substitute(Block(Word(0x35, 0x29, 0xf4, 0x0c), Word(0xbe, 0x99, 0xfc, 0xb5),
                                     Word(0xff, 0x8f, 0xb8, 0xe0), Word(0xe5, 0x5e, 0x5a, 0xfd)), false))
         == Block(Word(0x9f, 0x1c, 0xc5, 0x5f), Word(0xa9, 0xd7, 0x58, 0x18),
                  Word(0xf4, 0x08, 0xc2, 0x25), Word(0x9e, 0xa6, 0x2d, 0x2b))
  {
    hide Diffuse;
    StepsDiffuse(Block(Word(0xd9, 0x43, 0xbf, 0x3c), Word(0x5a, 0x26, 0xb0, 0xf2),
                       Word(0x7d, 0x9a, 0x6c, 0x90), Word(0x2a, 0x10, 0xbe, 0xba)));
  }

  lemma Round4()
    ensures Diffuse(Substitute(Xor(P3, E4), false)) == P4
  {
    hide Substitute, Diffuse;
    Round4Layers();
  }

  lemma Round5Layers()
    ensures Diffuse(Substitute(Block(Word(0xf0, 0x86, 0x16, 0x07), Word(0x64, 0xca, 0xfa, 0x7f),
                                     Word(0xc1, 0x22, 0x7b, 0x0d), Word(0xfe, 0x38, 0xf9, 0xd3)), true))
         == Block(Word(0x45, 0x4e, 0x7e, 0xfa), Word(0x19, 0x88, 0xf1, 0x18),
                  Word(0x2f, 0xa9, 0xa3, 0x16), Word(0xdd, 0xe0, 0xf8, 0x31))
  {
    hide Diffuse;
    StepsDiffuse(Block(Word(0x8c, 0x84, 0xff, 0x78), Word(0x43, 0x6e, 0x14, 0x41),
                       Word(0x78, 0x41, 0x03, 0x09), Word(0xbb, 0x3a, 0x69, 0x1c)));
  }

  lemma Round5()
    ensures Diffuse(Substitute(Xor(P4, E5), true)) == P5
  {
    hide Substitute, Diffuse;
    Round5Layers();
  }

  lemma Round6Layers()
    ensures Diffuse(Substitute(Block(Word(0xeb, 0x18, 0x5d, 0x53), Word(0x41, 0xb4, 0xfc, 0x50),
                                     Word(0xc6, 0x29, 0x43, 0x42), Word(0x45, 0x6e, 0x79, 0x41)), false))
         == Block(Word(0x88, 0xc3, 0x9b, 0xb2), Word(0x9e, 0x7a, 0x83, 0x33),
                  Word(0x49, 0x98, 0xa2, 0x19), Word(0x01, 0xab, 0xe9, 0x28))
  {
    hide Diffuse;
    StepsDiffuse(Block(Word(0x3c, 0x2a, 0x4c, 0x38), Word(0xf8, 0x14, 0xb0, 0x08),
                       Word(0xc7, 0x43, 0x1a, 0xf4), Word(0x68, 0xca, 0xb6, 0x7f)));
  }

  lemma Round6()
    ensures Diffuse(Substitute(Xor(P5, E6), false)) == P6
  {
    hide Substitute, Diffuse;
    Round6Layers();
  }

  lemma Round7Layers()
    ensures Diffuse(Substitute(Block(Word(0xc9, 0xec, 0x56, 0xa9), Word(0xf2, 0x8d, 0x1b, 0xf8),
                                     Word(0xc2, 0xfd, 0xcf, 0x69), Word(0x9a, 0x77, 0xab, 0x44)), true))
         == Block(Word(0xde, 0xab, 0x06, 0x65), Word(0xaa, 0xcd, 0xe8, 0xaa),
                  Word(0xd1, 0xc1, 0x98, 0x6f), Word(0xf9, 0x96, 0x7c, 0x5e))
  {
    hide Diffuse;
    StepsDiffuse(Block(Word(0xdd, 0xd6, 0xb9, 0xa4), Word(0x89, 0x1f, 0x44, 0xf7),
                       Word(0x25, 0xba, 0x5f, 0x27), Word(0xb8, 0x26, 0x0e, 0xdd)));
  }

  lemma Round7()
    ensures Diffuse(Substitute(Xor(P6, E7), true)) == P7
  {
    hide Substitute, Diffuse;
    Round7Layers();
  }

  lemma Round8Layers()
    ensures Diffuse(Substitute(Block(Word(0x27, 0x38, 0x95, 0x55), Word(0xa4, 0xad, 0x80, 0x63),
                                     Word(0xc6, 0x93, 0x29, 0x31), Word(0x98, 0xb8, 0xfb, 0xf3)), false))
         == Block(Word(0x9d, 0x81, 0x12, 0xc9), Word(0x4f, 0x9e, 0x67, 0x11),
                  Word(0x18, 0x7b, 0x1a, 0x34), Word(0x48, 0x7a, 0xc5, 0xe5))
  {
    hide Diffuse;
    StepsDiffuse(Block(Word(0x3d, 0x53, 0x2a, 0x83), Word(0x1d, 0x46, 0xcd, 0x31),
                       Word(0xc7, 0x5c, 0xa5, 0x73), Word(0xe2, 0x5a, 0x0f, 0xa5)));
  }

  lemma Round8()
    ensures Diffuse(Substitute(Xor(P7, E8), false)) == P8
  {
    hide Substitute, Diffuse;
    Round8Layers();
  }

  lemma Round9Layers()
    ensures Diffuse(Substitute(Block(Word(0xab, 0x49, 0x2d, 0x65), Word(0x3d, 0x62, 0xdc, 0x03),
                                     Word(0xac, 0xe3, 0x9a, 0x79), Word(0x47, 0xa5, 0xf0, 0xd8)), true))
         == Block(Word(0x29, 0x7d, 0x76, 0x55), Word(0x3d, 0x4b, 0x98, 0x4f),
                  Word(0x3e, 0x8d, 0x4e, 0xd5), Word(0x24, 0x64, 0x45, 0x9d))
  {
    hide Diffuse;
    StepsDiffuse(Block(Word(0x62, 0x78, 0xfa, 0x97), Word(0x27, 0x0e, 0x93, 0x1b),
                       Word(0x91, 0x33, 0x37, 0xbd), Word(0xa0, 0xbf, 0x17, 0x90)));
  }

  lemma Round9()
    ensures Diffuse(Substitute(Xor(P8, E9), true)) == P9
  {
    hide Substitute, Diffuse;
    Round9Layers();
  }

  lemma Round10Layers()
    ensures Diffuse(Substitute(Block(Word(0x3f, 0x05, 0x12, 0xf8), Word(0xf7, 0x77, 0xe6, 0xc7),
                                     Word(0x1c, 0xae, 0x7e, 0xe3), Word(0x06, 0x55, 0x3d, 0xe2)), false))
         == Block(Word(0xcd, 0x37, 0x2f, 0x09), Word(0x7e, 0xb2, 0x43, 0xc8),
                  Word(0xc0, 0xba, 0x6c, 0x39), Word(0xb5, 0xc7, 0xac, 0x23))
  {
    hide Diffuse;
    StepsDiffuse(Block(Word(0x25, 0xb9, 0xc9, 0x89), Word(0x26, 0x19, 0x8e, 0xf6),
                       Word(0xc4, 0x2b, 0xf3, 0x33), Word(0xa5, 0x24, 0x27, 0x5b)));
  }

  lemma Round10()
    ensures Diffuse(Substitute(Xor(P9, E10), false)) == P10
  {
    hide Substitute, Diffuse;
    Round10Layers();
  }

  lemma Round11Layers()
    ensures Diffuse(Substitute(Block(Word(0x8d, 0x8a, 0xd2, 0xcf), Word(0xdf, 0x71, 0x57, 0x28),
                                     Word(0x2b, 0x2a, 0xe9, 0x32), Word(0xd1, 0x66, 0xd9, 0x76)), true))
         == Block(Word(0x55, 0xf9, 0xa1, 0x9b), Word(0x5c, 0x91, 0xe0, 0x95),
                  Word(0x7b, 0x6a, 0x4f, 0x30), Word(0x49, 0xd7, 0xbc, 0x0c))
  {
    hide Diffuse;
    StepsDiffuse(Block(Word(0x5d, 0xf1, 0x7f, 0x45), Word(0x9e, 0xab, 0xda, 0x57),
                       Word(0xf1, 0x18, 0xeb, 0x6c), Word(0x3e, 0x58, 0xe5, 0xad)));
  }

  lemma Round11()
    ensures Diffuse(Substitute(Xor(P10, E11), true)) == P11
  {
    hide Substitute, Diffuse;
    Round11Layers();
  }

  lemma Round12Layers()
    ensures Diffuse(Substitute(Block(Word(0x55, 0x71, 0x0f, 0xf4), Word(0x33, 0x72, 0x2d, 0x9b),
                                     Word(0x84, 0x32, 0xd2, 0x20), Word(0x58, 0x6b, 0x8f, 0x77)), false))
         == Block(Word(0xf0, 0xcf, 0x94, 0xf7), Word(0x40, 0x2d, 0x01, 0x30),
                  Word(0xff, 0x23, 0x05, 0x52), Word(0x45, 0xef, 0x68, 0xea))
  {
    hide Diffuse;
    StepsDiffuse(Block(Word(0xed, 0xfa, 0x76, 0x3d), Word(0x66, 0xdc, 0xd8, 0x3e),
                       Word(0x4f, 0x6c, 0xb5, 0x1d), Word(0x5e, 0x23, 0x73, 0x26)));
  }

  lemma Round12()
    ensures Diffuse(Substitute(Xor(P11, E12), false)) == P12
  {
    hide Substitute, Diffuse;
    Round12Layers();
  }

  lemma Round13Layers()
    ensures Diffuse(Substitute(Block(Word(0xff, 0x86, 0x7a, 0x3c), Word(0x9f, 0x0c, 0xf1, 0x8a),
                                     Word(0x2c, 0xcc, 0xfb, 0x0f), Word(0xbb, 0xa4, 0x4f, 0xfd)), true))
         == Block(Word(0xa0, 0x15, 0x63, 0xf5), Word(0xea, 0x16, 0x26, 0xad),
                  Word(0x9a, 0xc1, 0xdc, 0xbf), Word(0x69, 0x31, 0x45, 0x6e))
  {
    hide Diffuse;
    StepsDiffuse(Block(Word(0x16, 0x84, 0xbd, 0x0c), Word(0xdb, 0x3c, 0x2b, 0xbb),
                       Word(0x71, 0x16, 0x63, 0x3c), Word(0xea, 0xa9, 0x92, 0xa2)));
  }

  lemma Round13()
    ensures Diffuse(Substitute(Xor(P12, E13), true)) == P13
  {
    hide Substitute, Diffuse;
    Round13Layers();
  }

  lemma LastSubstituted()
    ensures Substitute(Block(Word(0x13, 0x6b, 0x72, 0x8e), Word(0x3f, 0x57, 0x25, 0x4b),
                             Word(0x7e, 0x3e, 0xad, 0xa2), Word(0x8f, 0x57, 0xd8, 0xf5)), false)
         == Block(Word(0x82, 0x23, 0x40, 0x13), Word(0x25, 0x93, 0x3f, 0x95),
                  Word(0x8a, 0x9b, 0x95, 0xfd), Word(0x73, 0x93, 0x61, 0x22))
  {
  }

  lemma LastRound()
    ensures Xor(Substitute(Xor(P13, E14), false), E15) == CIPHER
  {
    hide Substitute;
    LastSubstituted();
  }

  lemma FirstHalf()
    ensures After(EK, PLAIN, 7) == P7
  {
    hide After, Diffuse, Substitute, Xor;
    V.Start(EK, PLAIN);
    Round1();
    V.AfterMore(EK, PLAIN, 1, PLAIN, P1);
    Round2();
    V.AfterMore(EK, PLAIN, 2, P1, P2);
    Round3();
    V.AfterMore(EK, PLAIN, 3, P2, P3);
    Round4();
    V.AfterMore(EK, PLAIN, 4, P3, P4);
    Round5();
    V.AfterMore(EK, PLAIN, 5, P4, P5);
    Round6();
    V.AfterMore(EK, PLAIN, 6, P5, P6);
    Round7();
    V.AfterMore(EK, PLAIN, 7, P6, P7);
  }

  lemma KnownStates()
    ensures After(EK, PLAIN, 13) == P13
  {
    hide After, Diffuse, Substitute, Xor;
    FirstHalf();
    Round8();
    V.AfterMore(EK, PLAIN, 8, P7, P8);
    Round9();
    V.AfterMore(EK, PLAIN, 9, P8, P9);
    Round10();
    V.AfterMore(EK, PLAIN, 10, P9, P10);
    Round11();
    V.AfterMore(EK, PLAIN, 11, P10, P11);
    Round12();
    V.AfterMore(EK, PLAIN, 12, P11, P12);
    Round13();
    V.AfterMore(EK, PLAIN, 13, P12, P13);
  }

  /** The key and the plaintext give the ciphertext of the appendix. */
  lemma KnownAnswer()
    ensures Encrypts(KEY, 192, PLAIN, CIPHER)
  {
    hide After, Substitute, Xor, Schedule;
    KnownSchedule();
    KnownStates();
    LastRound();
  }

  /** And the ciphertext the plaintext. */
  lemma KnownBack()
    ensures Decrypts(KEY, 192, CIPHER, PLAIN)
  {
    hide Schedule, DecKeys, Cipher;
    KnownAnswer();
    KeyInverts(KEY, 192, PLAIN, CIPHER);
  }
}
