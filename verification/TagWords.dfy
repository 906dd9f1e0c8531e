/** How the log is laid out in a metadata block: every tag word is stored exclusive-or'ed with the one
    before it, so that a block can be scanned in both directions. */
module TagWords {
  import opened LfsBase
  import opened TagLog

  /** The valid bit, set in erased storage. */
  const VALID_BIT: bv32 := 0x80000000
  const FIRST_PTAG: bv32 := 0xffffffff
  const CCRC: bv16 := 0x500

  /** A tag word as the log means it, and the data behind it. */
  datatype Stored = Stored(word: bv32, data: seq<bv8>)

  function TypeOf(w: bv32): bv16 {
    ((w >> 20) & 0x7ff) as bv16
  }

  function IdOf(w: bv32): int {
    ((w >> 10) & 0x3ff) as int
  }

  function SizeOf(w: bv32): int {
    (w & 0x3ff) as int
  }

  function TagOf(w: bv32): Tag {
    Tag(TypeOf(w), IdOf(w), SizeOf(w))
  }

  /** The size of a record in the block. A removed attribute has no data. */
  function DSize(w: bv32): (n: int)
    ensures n >= 4
  {
    4 + if w & 0x3ff == 0x3ff then 0 else SizeNonneg(w); SizeOf(w)
  }

  lemma SizeNonneg(w: bv32)
    ensures 0 <= SizeOf(w)
  {
  }

  /** The word without its valid bit. */
  function Strip(w: bv32): bv32 {
    w & 0x7fffffff
  }

  /** Marks a word as one whose data is on disk. */
  function FromDisk(w: bv32): bv32 {
    w | VALID_BIT
  }

  function Xor(a: bv32, b: bv32): bv32 {
    a ^ b
  }

  /** A crc tag with an odd chunk flips the valid bit of the next tag. */
  function Flip(w: bv32): bv32 {
    if TypeOf(w) & 0x780 == CCRC && TypeOf(w) & 1 == 1 then VALID_BIT else 0
  }

  ghost predicate ValidStored(s: Stored) {
    s.word & VALID_BIT == 0 && |s.data| == DSize(s.word) - 4
  }

  ghost predicate ValidLog(log: seq<Stored>) {
    forall k | 0 <= k < |log| :: ValidStored(log[k])
  }

  /** The word the tag after the log is exclusive-or'ed with. */
  function PTag(log: seq<Stored>): bv32 {
    if log == [] then FIRST_PTAG else Xor(log[|log| - 1].word, Flip(log[|log| - 1].word))
  }

  function ToBe32(w: bv32): (b: seq<bv8>)
    ensures |b| == 4
  {
    [(w >> 24) as bv8, ((w >> 16) & 0xff) as bv8, ((w >> 8) & 0xff) as bv8, (w & 0xff) as bv8]
  }

  function FromBe32(b: seq<bv8>, off: int): bv32
    requires 0 <= off && off + 4 <= |b|
  {
    ((b[off] as bv32) << 24) | ((b[off + 1] as bv32) << 16) | ((b[off + 2] as bv32) << 8) | (b[off + 3] as bv32)
  }

  lemma BeRoundTrip(w: bv32)
    ensures FromBe32(ToBe32(w), 0) == w
  {
  }

  /** The highest byte comes first. */
  lemma BigEndian(b: seq<bv8>, off: int)
    requires 0 <= off && off + 4 <= |b|
    ensures FromBe32(b, off) == (b[off] as bv32) * 0x100_0000 + (b[off + 1] as bv32) * 0x1_0000
                                + (b[off + 2] as bv32) * 0x100 + (b[off + 3] as bv32)
  {
    BigEndianBytes(b[off], b[off + 1], b[off + 2], b[off + 3]);
  }

  lemma BigEndianBytes(b0: bv8, b1: bv8, b2: bv8, b3: bv8)
    ensures ((b0 as bv32) << 24) | ((b1 as bv32) << 16) | ((b2 as bv32) << 8) | (b3 as bv32)
         == (b0 as bv32) * 0x100_0000 + (b1 as bv32) * 0x1_0000 + (b2 as bv32) * 0x100 + (b3 as bv32)
  {
  }

  // ---- the layout of a tag word ----

  /** LFS_MKTAG, the number with a type of 11 bits, an id of 10 and a size of 10. */
  function MkTag(ty: bv32, id: bv32, size: bv32): bv32 {
    ty * 0x10_0000 + id * 0x400 + size
  }

  predicate FieldsFit(ty: bv32, id: bv32, size: bv32) {
    ty < 0x800 && id < 0x400 && size < 0x400
  }

  /** Every word without its valid bit is one such number. */
  lemma WordFields(w: bv32)
    requires w < 0x8000_0000
    ensures FieldsFit(w / 0x10_0000, w / 0x400 % 0x400, w % 0x400)
    ensures w == MkTag(w / 0x10_0000, w / 0x400 % 0x400, w % 0x400)
  {
  }

  /** The same put together by bits, v being the valid bit or zero. */
  function Packed(v: bv32, ty: bv32, id: bv32, size: bv32): bv32 {
    v | (ty << 20) | (id << 10) | size
  }

  lemma PackedIs(ty: bv32, id: bv32, size: bv32)
    requires FieldsFit(ty, id, size)
    ensures Packed(0, ty, id, size) == MkTag(ty, id, size)
    ensures Packed(VALID_BIT, ty, id, size) == MkTag(ty, id, size) + 0x8000_0000
  {
  }

  lemma TypeBits(v: bv32, ty: bv32, id: bv32, size: bv32)
    requires FieldsFit(ty, id, size) && (v == 0 || v == VALID_BIT)
    ensures (Packed(v, ty, id, size) >> 20) & 0x7ff == ty
  {
  }

  lemma IdBits(v: bv32, ty: bv32, id: bv32, size: bv32)
    requires FieldsFit(ty, id, size) && (v == 0 || v == VALID_BIT)
    ensures (Packed(v, ty, id, size) >> 10) & 0x3ff == id
  {
  }

  lemma SizeBits(v: bv32, ty: bv32, id: bv32, size: bv32)
    requires FieldsFit(ty, id, size)
    ensures Packed(v & VALID_BIT, ty, id, size) & 0x3ff == size
  {
  }

  lemma StripBits(ty: bv32, id: bv32, size: bv32)
    requires FieldsFit(ty, id, size)
    ensures Strip(Packed(0, ty, id, size)) == Packed(0, ty, id, size)
    ensures Strip(Packed(VALID_BIT, ty, id, size)) == Packed(0, ty, id, size)
  {
  }

  /** The fields of a word. */
  predicate HasFields(w: bv32, ty: bv32, id: bv32, size: bv32) {
    && (w >> 20) & 0x7ff == ty && (w >> 10) & 0x3ff == id && w & 0x3ff == size
    && Strip(w) == MkTag(ty, id, size)
  }

  lemma FieldsOf(w: bv32, ty: bv32, id: bv32, size: bv32)
    requires FieldsFit(ty, id, size)
    requires w == MkTag(ty, id, size) || w == MkTag(ty, id, size) + 0x8000_0000
    ensures HasFields(w, ty, id, size)
  {
    hide MkTag, FieldsFit, Packed, Strip;
    var v := if w == MkTag(ty, id, size) then 0 else VALID_BIT;
    PackedIs(ty, id, size);
    TypeBits(v, ty, id, size);
    IdBits(v, ty, id, size);
    SizeBits(v, ty, id, size);
    StripBits(ty, id, size);
    assert v & VALID_BIT == v;
  }

  lemma FieldValues(w: bv32, ty: bv32, id: bv32, size: bv32)
    requires HasFields(w, ty, id, size)
    ensures TypeOf(w) == ty as bv16 && IdOf(w) == id as int && SizeOf(w) == size as int
    ensures DSize(w) == 4 + if size == 0x3ff then 0 else size as int
  {
    hide MkTag, Strip;
  }

  /** The tag of such a number, with or without the valid bit on top of it. */
  lemma Layout(w: bv32, ty: bv32, id: bv32, size: bv32)
    requires FieldsFit(ty, id, size)
    requires w == MkTag(ty, id, size) || w == MkTag(ty, id, size) + 0x8000_0000
    ensures TagOf(w) == Tag(ty as bv16, id as int, size as int)
    ensures DSize(w) == 4 + if size == 0x3ff then 0 else size as int
    ensures Strip(w) == MkTag(ty, id, size)
  {
    hide MkTag, FieldsFit, TypeOf, IdOf, SizeOf, DSize, Strip;
    FieldsOf(w, ty, id, size);
    FieldValues(w, ty, id, size);
  }

  /** Exactly crc tags with an odd chunk flip the next valid bit, and nothing but that. */
  lemma FlipMeans(ty: bv32, id: bv32, size: bv32)
    requires FieldsFit(ty, id, size)
    ensures Flip(MkTag(ty, id, size)) == if 0x500 <= ty < 0x580 && ty % 2 == 1 then 0x8000_0000 else 0
  {
    hide MkTag, TypeOf;
    Layout(MkTag(ty, id, size), ty, id, size);
    CrcTypes(ty);
    assert TypeOf(MkTag(ty, id, size)) == ty as bv16;
  }

  lemma CrcTypes(ty: bv32)
    requires ty < 0x800
    ensures (ty as bv16) & 0x780 == CCRC && (ty as bv16) & 1 == 1 <==> 0x500 <= ty < 0x580 && ty % 2 == 1
  {
  }

  // ---- the log in a block ----

  /** The bytes of the log, behind the revision count. */
  ghost function Bytes(log: seq<Stored>): seq<bv8> {
    if log == [] then []
    else
      var s, older := log[|log| - 1], log[..|log| - 1];
      Bytes(older) + ToBe32(Xor(s.word, PTag(older))) + s.data
  }

  function RecordOf(s: Stored): Record {
    Record(TagOf(s.word), s.data)
  }

  function Records(log: seq<Stored>): (r: seq<Record>)
    ensures |r| == |log|
  {
    seq(|log|, k requires 0 <= k < |log| => RecordOf(log[k]))
  }

  /** The block holds the log, behind a revision count of four bytes. */
  ghost predicate Holds(block: seq<bv8>, log: seq<Stored>) {
    && ValidLog(log)
    && 4 + |Bytes(log)| <= |block|
    && block[4..4 + |Bytes(log)|] == Bytes(log)
  }

  function End(log: seq<Stored>): int {
    if log == [] then 4 else End(log[..|log| - 1]) + DSize(log[|log| - 1].word)
  }

  lemma {:induction false} EndOfBytes(log: seq<Stored>)
    requires ValidLog(log)
    ensures End(log) == 4 + |Bytes(log)|
  {
    hide DSize;
    if log != [] {
      EndOfBytes(log[..|log| - 1]);
    }
  }

  /** The last record of the log in the block. */
  lemma HoldsLast(block: seq<bv8>, log: seq<Stored>)
    requires Holds(block, log) && log != []
    ensures
      var s, older := log[|log| - 1], log[..|log| - 1];
      && Holds(block, older)
      && 4 <= End(older) && End(log) == End(older) + DSize(s.word) <= |block|
      && FromBe32(block, End(older)) == Xor(s.word, PTag(older))
      && block[End(older) + 4..End(log)] == s.data
  {
    hide DSize, PTag, ToBe32, FromBe32, Xor;
    var s, older := log[|log| - 1], log[..|log| - 1];
    var b, w := Bytes(older), ToBe32(Xor(s.word, PTag(older)));
    EndOfBytes(log);
    EndOfBytes(older);
    ThreeParts(block, b, w, s.data);
    BeRoundTrip(Xor(s.word, PTag(older)));
    SameWord(block, End(older), w);
  }

  lemma ThreeParts(block: seq<bv8>, b: seq<bv8>, w: seq<bv8>, d: seq<bv8>)
    requires 4 + |b + w + d| <= |block| && block[4..4 + |b + w + d|] == b + w + d
    ensures block[4..4 + |b|] == b
    ensures block[4 + |b|..4 + |b| + |w|] == w
    ensures block[4 + |b| + |w|..4 + |b| + |w| + |d|] == d
  {
    var all := b + w + d;
    SubSlice(block, 4, 4 + |all|, 0, |b|);
    SubSlice(block, 4, 4 + |all|, |b|, |b| + |w|);
    SubSlice(block, 4, 4 + |all|, |b| + |w|, |all|);
    assert all[..|b|] == b && all[|b|..|b| + |w|] == w && all[|b| + |w|..] == d;
  }

  lemma SameWord(block: seq<bv8>, off: int, w: seq<bv8>)
    requires 0 <= off && off + 4 <= |block| && block[off..off + 4] == w
    ensures FromBe32(block, off) == FromBe32(w, 0)
  {
    assert w[0] == block[off] && w[1] == block[off + 1] && w[2] == block[off + 2] && w[3] == block[off + 3];
  }

  /** Undoing the exclusive-or on the way back: the flipped valid bit is masked off. */
  lemma Unchain(word: bv32, tag: bv32, p: bv32)
    requires Strip(tag) == word
    ensures Strip(Xor(Xor(word, p), tag)) == Strip(p)
  {
  }

  lemma ChainedTag(log: seq<Stored>)
    requires ValidLog(log) && log != []
    ensures Strip(PTag(log)) == log[|log| - 1].word
  {
    hide TypeOf;
    assert ValidStored(log[|log| - 1]);
    var f := Flip(log[|log| - 1].word);
    FlipBit(log[|log| - 1].word, f);
  }

  lemma FlipBit(w: bv32, f: bv32)
    requires w & VALID_BIT == 0 && (f == 0 || f == VALID_BIT)
    ensures Strip(Xor(w, f)) == w
  {
  }

  /** Masking off the valid bit leaves type, id and size. */
  lemma SameFields(tag: bv32)
    ensures TagOf(tag) == TagOf(Strip(tag)) && DSize(tag) == DSize(Strip(tag))
  {
    hide TypeOf, IdOf, SizeOf, Strip;
    var w := Strip(tag);
    SameType(tag, w);
    SameId(tag, w);
    SameSize(tag, w);
  }

  lemma SameType(tag: bv32, w: bv32)
    requires w == Strip(tag)
    ensures TypeOf(tag) == TypeOf(w)
  {
    hide Strip;
    FieldBits(tag, w);
  }

  lemma SameId(tag: bv32, w: bv32)
    requires w == Strip(tag)
    ensures IdOf(tag) == IdOf(w)
  {
    hide Strip;
    FieldBits(tag, w);
  }

  lemma SameSize(tag: bv32, w: bv32)
    requires w == Strip(tag)
    ensures SizeOf(tag) == SizeOf(w) && tag & 0x3ff == w & 0x3ff
  {
    hide Strip;
    FieldBits(tag, w);
  }

  lemma FieldBits(tag: bv32, w: bv32)
    requires w == Strip(tag)
    ensures (w >> 20) & 0x7ff == (tag >> 20) & 0x7ff
    ensures (w >> 10) & 0x3ff == (tag >> 10) & 0x3ff
    ensures w & 0x3ff == tag & 0x3ff
  {
  }

  function Find(log: seq<Record>, byId: bool, mask: bv16, ty: bv16, id: int): Option<Attr> {
    if byId then Lookup(log, mask, ty, id) else LookupAny(log, mask, ty)
  }

  /** The first size bytes of an attribute, zeros behind it. */
  function Filled(data: seq<bv8>, size: nat): (b: seq<bv8>)
    ensures |b| == size
  {
    if |data| >= size then data[..size] else data + seq(size - |data|, _ => 0)
  }

  /** The part of an attribute from off on. */
  function From(data: seq<bv8>, off: nat): seq<bv8> {
    if off <= |data| then data[off..] else []
  }

  /** A slice that does not reach over the end of the attribute, unless it starts where the attribute does. */
  predicate Inside(size: int, goff: nat, gsize: nat) {
    Min(size, gsize) <= 0 || goff + Min(size, gsize) <= size
  }

  /** What a lookup hands back. */
  predicate Answers(err: int, found: Option<Tag>, buffer: seq<bv8>, a: Option<Attr>, byId: bool, id: int,
                    goff: nat, gsize: nat) {
    match a
    case None => err == 0 && found == None
    case Some(attr) =>
      && (err == 0 || err == CORRUPT) && (goff + Min(attr.size, gsize) <= attr.size ==> err == 0)
      && (err == 0 ==>
          && found.Some? && found.value.ty == attr.ty && found.value.size == attr.size
          && (byId ==> found.value.id == id) && |buffer| == gsize
          && (Inside(attr.size, goff, gsize) ==> buffer == Filled(From(attr.data, goff), gsize)))
  }

  /** The bytes that are read for a slice of an attribute whose data lies at that place of the block. */
  function Sliced(block: seq<bv8>, at: int, size: int, goff: nat, gsize: nat): (b: seq<bv8>)
    requires 0 <= at && 0 <= size && at + goff + Min(size, gsize) <= |block|
    ensures |b| == gsize
  {
    var diff := Min(size, gsize);
    block[at + goff..at + goff + diff] + seq(gsize - diff, _ => 0)
  }

  /** The slice is part of the attribute whatever lies behind it exactly when it stays inside: a slice that
      starts later and reaches over the end shows what is stored behind the attribute. */
  lemma SliceExact(data: seq<bv8>, at: nat, goff: nat, gsize: nat)
    ensures Inside(|data|, goff, gsize) <==>
      forall block: seq<bv8> | HasData(block, at, data) && at + goff + Min(|data|, gsize) <= |block| ::
        Sliced(block, at, |data|, goff, gsize) == Filled(From(data, goff), gsize)
  {
    hide Sliced, Filled, Inside, HasData;
    if Inside(|data|, goff, gsize) {
      forall block: seq<bv8> | HasData(block, at, data) && at + goff + Min(|data|, gsize) <= |block|
        ensures Sliced(block, at, |data|, goff, gsize) == Filled(From(data, goff), gsize)
      {
        SliceInside(block, at, data, goff, gsize);
      }
    } else {
      var block := SliceBeyond(data, at, goff, gsize);
    }
  }

  predicate HasData(block: seq<bv8>, at: nat, data: seq<bv8>) {
    at + |data| <= |block| && block[at..at + |data|] == data
  }

  lemma SliceInside(block: seq<bv8>, at: nat, data: seq<bv8>, goff: nat, gsize: nat)
    requires HasData(block, at, data) && at + goff + Min(|data|, gsize) <= |block| && Inside(|data|, goff, gsize)
    ensures Sliced(block, at, |data|, goff, gsize) == Filled(From(data, goff), gsize)
  {
    var diff := Min(|data|, gsize);
    if diff > 0 {
      SubSlice(block, at, at + |data|, goff, goff + diff);
    } else {
      assert From(data, goff) == [] || gsize == 0;
    }
  }

  /** A block with ones behind the attribute, and a place where they show in the slice. */
  lemma SliceBeyond(data: seq<bv8>, at: nat, goff: nat, gsize: nat) returns (block: seq<bv8>)
    requires !Inside(|data|, goff, gsize)
    ensures HasData(block, at, data) && at + goff + Min(|data|, gsize) <= |block|
    ensures Sliced(block, at, |data|, goff, gsize) != Filled(From(data, goff), gsize)
  {
    hide Sliced, Filled;
    var before, ones := seq(at, _ => 0 as bv8), seq(goff + Min(|data|, gsize), _ => 1 as bv8);
    block := before + data + ones;
    assert block[at..at + |data|] == data;
    var i := if goff < |data| then |data| - goff else 0;
    assert block[at + goff + i] == ones[goff + i - |data|] == 1;
    SlicedAt(block, at, |data|, goff, gsize, i);
    FilledBehind(From(data, goff), gsize, i);
  }

  lemma SlicedAt(block: seq<bv8>, at: int, size: int, goff: nat, gsize: nat, i: nat)
    requires 0 <= at && 0 <= size && at + goff + Min(size, gsize) <= |block| && i < Min(size, gsize)
    ensures Sliced(block, at, size, goff, gsize)[i] == block[at + goff + i]
  {
  }

  lemma FilledBehind(data: seq<bv8>, size: nat, i: nat)
    requires |data| <= i < size
    ensures Filled(data, size)[i] == 0
  {
  }

  /** While the offset leaves room for the tag there is a record to look at. */
  lemma OffTells(block: seq<bv8>, rest: seq<Stored>, ntag: bv32)
    requires Holds(block, rest) && Strip(ntag) == Strip(PTag(rest))
    ensures rest != [] <==> End(rest) >= 4 + DSize(ntag)
    ensures rest != [] ==>
      Strip(ntag) == rest[|rest| - 1].word && DSize(ntag) == DSize(rest[|rest| - 1].word)
      && TagOf(ntag) == TagOf(rest[|rest| - 1].word)
  {
    SameFields(ntag);
    if rest != [] {
      ChainedTag(rest);
      HoldsLast(block, rest);
    }
  }

  /** Stepping back over one record: where it lies, its tag, and the word before it. */
  lemma Back(block: seq<bv8>, rest: seq<Stored>, ntag: bv32)
    requires Holds(block, rest) && Strip(ntag) == Strip(PTag(rest))
    requires End(rest) >= 4 + DSize(ntag)
    ensures rest != [] && TagOf(ntag) == TagOf(rest[|rest| - 1].word)
    ensures
      var older := rest[..|rest| - 1];
      && Holds(block, older) && 4 <= End(older) == End(rest) - DSize(ntag) <= |block| - 4
      && Strip(Strip(Xor(FromBe32(block, End(older)), ntag))) == Strip(PTag(older))
  {
    hide FromBe32, TagOf, PTag, End, Xor, Strip;
    OffTells(block, rest, ntag);
    HoldsLast(block, rest);
    var older := rest[..|rest| - 1];
    Unchain(rest[|rest| - 1].word, ntag, PTag(older));
    Masked(Xor(FromBe32(block, End(older)), ntag));
  }

  lemma RecordsLast(rest: seq<Stored>)
    requires rest != []
    ensures Records(rest)[|rest| - 1] == RecordOf(rest[|rest| - 1])
    ensures Records(rest)[..|rest| - 1] == Records(rest[..|rest| - 1])
  {
  }

  /** What the newest record contributes to the search. */
  lemma Unfold(rest: seq<Stored>, byId: bool, mask: bv16, ty: bv16, id: int)
    requires rest != []
    ensures
      var e, older := RecordOf(rest[|rest| - 1]), Records(rest[..|rest| - 1]);
      var before := if byId then Unspliced(e.tag, id) else id;
      Find(Records(rest), byId, mask, ty, id) ==
        if byId && e.tag == Tag(CREATE, id, 0) then None
        else if Agree(mask, e.tag.ty, ty) && (!byId || e.tag.id == before)
        then (if IsDelete(e.tag) then None else Some(AttrOf(e)))
        else Find(older, byId, mask, ty, before)
  {
    hide Agree, IsSplice, TagOf, Unspliced;
    RecordsLast(rest);
  }

  /** Where the data of the newest record lies. */
  lemma DataPlace(block: seq<bv8>, rest: seq<Stored>)
    requires Holds(block, rest) && rest != [] && !IsDelete(TagOf(rest[|rest| - 1].word))
    ensures
      var s, off := rest[|rest| - 1], End(rest[..|rest| - 1]);
      4 <= off && TagOf(s.word).size == |s.data| && HasData(block, off + 4, s.data)
  {
    hide FromBe32, PTag, End;
    HoldsLast(block, rest);
    NotRemoved(rest[|rest| - 1]);
  }

  /** The data of the newest record, as far as it is asked for. */
  lemma ReadData(block: seq<bv8>, rest: seq<Stored>, goff: nat, gsize: nat)
    requires Holds(block, rest) && rest != [] && !IsDelete(TagOf(rest[|rest| - 1].word))
    ensures
      var s, off := rest[|rest| - 1], End(rest[..|rest| - 1]);
      var size := TagOf(s.word).size;
      && 0 <= Min(size, gsize) <= gsize && 4 <= off && 0 <= size == |s.data|
      && (goff + Min(size, gsize) <= size ==> off + 4 + goff + Min(size, gsize) <= |block|)
      && (off + 4 + goff + Min(size, gsize) <= |block| && Inside(size, goff, gsize) ==>
          Sliced(block, off + 4, size, goff, gsize) == Filled(From(s.data, goff), gsize))
  {
    hide Holds, TagOf, End, Sliced, From, Filled;
    DataPlace(block, rest);
    var s, off := rest[|rest| - 1], End(rest[..|rest| - 1]);
    if off + 4 + goff + Min(|s.data|, gsize) <= |block| && Inside(|s.data|, goff, gsize) {
      SliceInside(block, off + 4, s.data, goff, gsize);
    }
  }

  lemma NotRemoved(s: Stored)
    requires ValidStored(s) && !IsDelete(TagOf(s.word))
    ensures |s.data| == SizeOf(s.word)
  {
    SizeIsMarker(s.word);
  }

  lemma SizeIsMarker(w: bv32)
    ensures SizeOf(w) == REMOVED <==> w & 0x3ff == 0x3ff
  {
  }

  /** lfs_dir_getslice: scans the block backwards from off, where etag is the word the next tag would be
      exclusive-or'ed with. */
  method GetSlice(block: seq<bv8>, dirOff: int, etag: bv32, byId: bool, mask: bv16, ty: bv16, gid: int,
                  goff: nat, gsize: nat, move: Option<int>, ghost log: seq<Stored>)
    returns (err: int, found: Option<Tag>, buffer: seq<bv8>)
    requires Holds(block, log) && dirOff == End(log) && etag == PTag(log)
    ensures Answers(err, found, buffer,
      if byId then LookupMoved(Records(log), mask, ty, gid, move) else LookupAny(Records(log), mask, ty),
      byId, gid, goff, gsize)
  {
    hide Holds, DSize, PTag, FromBe32, TagOf, End, LookupAny, Lookup, Agree, IsSplice, SpliceOf, Find, Filled, Min,
         Records, LookupMoved, Strip, Xor, Sliced, From, Inside;
    var off, ntag, gdiff := dirOff, etag, 0;
    if byId && move.Some? && move.value <= gid {
      gdiff := -1;
    }
    ghost var rest := log;
    ghost var goal := Find(Records(log), byId, mask, ty, gid - gdiff);
    FindIsLookup(Records(log), byId, mask, ty, gid, move);
    while off >= 4 + DSize(ntag)
      invariant Holds(block, rest) && off == End(rest)
      invariant Strip(ntag) == Strip(PTag(rest))
      invariant goal == Find(Records(rest), byId, mask, ty, gid - gdiff)
      invariant !byId ==> gdiff == 0
      decreases off
    {
      Back(block, rest, ntag);
      Unfold(rest, byId, mask, ty, gid - gdiff);
      off := off - DSize(ntag);
      var tag := ntag;
      ntag := Strip(Xor(FromBe32(block, off), tag));
      var t := TagOf(tag);
      CreateIsSplice(gid - gdiff);
      if byId && IsSplice(t) && t.id <= gid - gdiff {
        if t == Tag(CREATE, gid - gdiff, 0) {
          return 0, None, [];
        }
        gdiff := gdiff + SpliceOf(t);
      }
      if Agree(mask, t.ty, ty) && (!byId || t.id == gid - gdiff) {
        if IsDelete(t) {
          return 0, None, [];
        }
        ReadData(block, rest, goff, gsize);
        if off + 4 + goff + Min(t.size, gsize) > |block| {
          return CORRUPT, None, [];
        }
        buffer := Sliced(block, off + 4, t.size, goff, gsize);
        return 0, Some(t.(id := t.id + gdiff)), buffer;
      }
      rest := rest[..|rest| - 1];
    }
    OffTells(block, rest, ntag);
    FindNothing(byId, mask, ty, gid - gdiff);
    assert Records(rest) == [] by { NoRecords(); }
    return 0, None, [];
  }

  lemma NoRecords()
    ensures Records([]) == []
  {
  }

  lemma CreateIsSplice(id: int)
    ensures IsSplice(Tag(CREATE, id, 0))
  {
  }

  lemma Masked(w: bv32)
    ensures Strip(Strip(w)) == Strip(w)
  {
  }

  lemma FindIsLookup(log: seq<Record>, byId: bool, mask: bv16, ty: bv16, id: int, move: Option<int>)
    ensures Find(log, byId, mask, ty, if byId && move.Some? && move.value <= id then id + 1 else id)
         == if byId then LookupMoved(log, mask, ty, id, move) else LookupAny(log, mask, ty)
  {
  }

  lemma FindNothing(byId: bool, mask: bv16, ty: bv16, id: int)
    ensures Find([], byId, mask, ty, id) == None
  {
  }

  // ---- reading forwards, and writing ----

  lemma {:induction false} HoldsPrefix(block: seq<bv8>, log: seq<Stored>, k: nat)
    requires Holds(block, log) && k <= |log|
    ensures Holds(block, log[..k]) && 4 <= End(log[..k]) <= End(log) && (k < |log| ==> End(log[..k]) < End(log))
    decreases |log|
  {
    hide Holds, DSize, PTag, FromBe32;
    if k < |log| {
      HoldsLast(block, log);
      HoldsPrefix(block, log[..|log| - 1], k);
      assert log[..|log| - 1][..k] == log[..k];
    } else {
      assert log[..k] == log;
      if log != [] {
        HoldsLast(block, log);
        HoldsPrefix(block, log[..|log| - 1], 0);
      }
    }
  }

  /** The step from one record to the next: the tag of record k. */
  lemma Forth(block: seq<bv8>, log: seq<Stored>, k: nat, ptag: bv32)
    requires Holds(block, log) && k < |log| && Strip(ptag) == Strip(PTag(log[..k]))
    ensures
      var off, s := End(log[..k]), log[k];
      && 4 <= off && off + DSize(s.word) == End(log[..k + 1]) <= |block|
      && Strip(FromDisk(Xor(FromBe32(block, off), ptag))) == s.word == Strip(PTag(log[..k + 1]))
      && block[off + 4..End(log[..k + 1])] == s.data
  {
    hide FromBe32, PTag, End, DSize, Holds, Xor, Strip, FromDisk;
    HoldsPrefix(block, log, k + 1);
    var more := log[..k + 1];
    assert more[..|more| - 1] == log[..k];
    HoldsLast(block, more);
    LastWord(block, more);
    ForwardBits(log[k].word, PTag(log[..k]), ptag);
  }

  lemma LastWord(block: seq<bv8>, log: seq<Stored>)
    requires Holds(block, log) && log != []
    ensures log[|log| - 1].word & VALID_BIT == 0 && Strip(PTag(log)) == log[|log| - 1].word
  {
    hide PTag;
    ChainedTag(log);
    assert ValidStored(log[|log| - 1]);
  }

  lemma ForwardBits(word: bv32, p: bv32, ptag: bv32)
    requires word & VALID_BIT == 0 && Strip(ptag) == Strip(p)
    ensures Strip(FromDisk(Xor(Xor(word, p), ptag))) == word
  {
  }

  /** The way lfs_dir_traverse reads the records of a directory, from the front. */
  method ReadForward(block: seq<bv8>, dirOff: int, ghost log: seq<Stored>) returns (records: seq<Record>)
    requires Holds(block, log) && dirOff == End(log)
    ensures records == Records(log)
  {
    hide Holds, DSize, PTag, FromBe32, TagOf, End, Records, Xor, Strip, FromDisk;
    var off, ptag := 0, FIRST_PTAG;
    records := [];
    ghost var k := 0;
    EmptyEnd();
    HoldsPrefix(block, log, 0);
    while off + DSize(ptag) < dirOff
      invariant 0 <= k <= |log| && off + DSize(ptag) == End(log[..k])
      invariant Strip(ptag) == Strip(PTag(log[..k]))
      invariant |records| == k && forall j | 0 <= j < k :: records[j] == RecordOf(log[j])
      decreases dirOff - off
    {
      HoldsPrefix(block, log, k);
      Whole(log, k);
      Forth(block, log, k, ptag);
      off := off + DSize(ptag);
      var tag := FromDisk(Xor(FromBe32(block, off), ptag));
      SameFields(tag);
      records := records + [Record(TagOf(tag), block[off + 4..off + DSize(tag)])];
      ptag := tag;
      k := k + 1;
    }
    HoldsPrefix(block, log, k);
    AllRecords(log, records);
  }

  lemma Whole(log: seq<Stored>, k: nat)
    requires k <= |log|
    ensures k == |log| ==> log[..k] == log
  {
  }

  lemma AllRecords(log: seq<Stored>, records: seq<Record>)
    requires |records| == |log| && forall j | 0 <= j < |log| :: records[j] == RecordOf(log[j])
    ensures records == Records(log)
  {
    hide RecordOf;
  }

  lemma EmptyEnd()
    ensures End([]) == 4 == DSize(FIRST_PTAG) && PTag([]) == FIRST_PTAG
  {
  }

  /** A commit under way: the bytes of the block programmed so far, and the last tag. */
  class Commit {
    var prog: seq<bv8>
    var ptag: bv32
    const end: int

    /** The block now holds the log. */
    ghost predicate Wrote(log: seq<Stored>)
      reads this
    {
      Holds(prog, log) && |prog| == End(log) && ptag == PTag(log)
    }

    /** Starts a block with its revision count. */
    constructor (rev: seq<bv8>, end: int)
      requires |rev| == 4
      ensures Wrote([]) && this.end == end
    {
      prog, ptag := rev, FIRST_PTAG;
      this.end := end;
      new;
      EmptyEnd();
      assert prog[4..4] == Bytes([]);
    }

    /** lfs_dir_commitattr, for attributes in memory and on disk alike; the topmost bit of the tag tells
        them apart and is not stored. */
    method CommitAttr(tag: bv32, data: seq<bv8>, ghost log: seq<Stored>) returns (err: int)
      requires Wrote(log) && |data| == DSize(tag) - 4 && TypeOf(tag) & 0x780 != CCRC
      modifies this
      ensures err == if old(|prog|) + DSize(tag) > end then NOSPC else 0
      ensures err == 0 ==> Wrote(log + [Stored(Strip(tag), data)])
      ensures err != 0 ==> unchanged(this)
    {
      hide Holds, DSize, FromBe32, TypeOf, End, Flip, PTag, ToBe32, Xor, Strip;
      var dsize := DSize(tag);
      if |prog| + dsize > end {
        return NOSPC;
      }
      var ntag := Xor(Strip(tag), ptag);
      Extended(prog, log, Stored(Strip(tag), data), tag);
      prog := prog + ToBe32(ntag) + data;
      ptag := Strip(tag);
      err := 0;
    }
  }

  lemma Extended(prog: seq<bv8>, log: seq<Stored>, s: Stored, tag: bv32)
    requires Holds(prog, log) && |prog| == End(log) && s.word == Strip(tag)
    requires |s.data| == DSize(tag) - 4 && TypeOf(tag) & 0x780 != CCRC
    ensures
      var more := log + [s];
      var out := prog + ToBe32(Xor(s.word, PTag(log))) + s.data;
      Holds(out, more) && |out| == End(more) && PTag(more) == s.word
  {
    hide FromBe32, PTag, TypeOf, DSize, Bytes, ToBe32, Flip, Xor, Strip;
    SameFields(tag);
    EndOfBytes(log);
    NoFlip(s.word);
    StoredOk(s, tag);
    var w := ToBe32(Xor(s.word, PTag(log)));
    BytesOneMore(log, s);
    var out := prog + w + s.data;
    assert prog[4..] == Bytes(log);
    assert out[4..] == prog[4..] + w + s.data;
    EndOfBytes(log + [s]);
    PTagLast(log + [s]);
  }

  lemma BytesOneMore(log: seq<Stored>, s: Stored)
    ensures Bytes(log + [s]) == Bytes(log) + ToBe32(Xor(s.word, PTag(log))) + s.data
  {
    hide PTag, ToBe32;
    assert (log + [s])[..|log|] == log;
  }

  lemma StoredOk(s: Stored, tag: bv32)
    requires s.word == Strip(tag) && |s.data| == DSize(tag) - 4
    ensures ValidStored(s)
  {
    hide DSize;
    SameFields(tag);
  }

  lemma PTagLast(log: seq<Stored>)
    requires log != []
    ensures PTag(log) == Xor(log[|log| - 1].word, Flip(log[|log| - 1].word))
  {
  }

  lemma NoFlip(w: bv32)
    requires TypeOf(w) & 0x780 != CCRC
    ensures Xor(w, Flip(w)) == w
  {
  }

  // ---- writing, then reading ----

  /** The word is LFS_MKTAG of the fields of the tag, with or without the valid bit. */
  predicate StandsFor(w: bv32, t: Tag, ty: bv32, id: bv32, size: bv32) {
    && FieldsFit(ty, id, size) && t == Tag(ty as bv16, id as int, size as int)
    && (w == MkTag(ty, id, size) || w == MkTag(ty, id, size) + 0x8000_0000)
  }

  /** An attribute of an entry that is not marked as removed. */
  predicate Writable(t: Tag) {
    t.ty < 0x800 && (t.ty < 0x400 || 0x600 <= t.ty) && t.size != REMOVED
  }

  lemma WritableFacts(t: Tag)
    requires Writable(t)
    ensures !IsSplice(t) && !IsDelete(t) && t.ty != CREATE && Unspliced(t, t.id) == t.id && t.ty & 0x780 != CCRC
  {
  }

  lemma StandingFor(w: bv32, t: Tag, ty: bv32, id: bv32, size: bv32)
    requires StandsFor(w, t, ty, id, size)
    ensures TagOf(w) == t && TypeOf(w) == t.ty && TagOf(Strip(w)) == t && 0 <= t.size
    ensures t.size != REMOVED ==> DSize(w) == 4 + t.size
  {
    hide TypeOf, IdOf, SizeOf, DSize, Strip, MkTag;
    Layout(w, ty, id, size);
    Layout(Strip(w), ty, id, size);
    Ten(size);
  }

  lemma Ten(size: bv32)
    requires size < 0x400
    ensures size as int == REMOVED <==> size == 0x3ff
  {
  }

  /** What was committed last is what a lookup of its type and id finds. */
  lemma CommittedFound(log: seq<Stored>, s: Stored, t: Tag)
    requires Writable(t) && TagOf(s.word) == t
    ensures LookupMoved(Records(log + [s]), 0x7ff, t.ty, t.id, None) == Some(Attr(t.ty, t.size, s.data))
  {
    hide TagOf, IsSplice, Unspliced;
    RecordsLast(log + [s]);
    WritableFacts(t);
  }

  /** An attribute committed in the layout of LFS_MKTAG, from memory or from disk, and asked for by its type
      and id. */
  method WriteThenRead(c: Commit, tag: bv32, t: Tag, data: seq<bv8>, ghost log: seq<Stored>,
                       ghost ty: bv32, ghost id: bv32, ghost size: bv32)
    returns (err: int, found: Option<Tag>, buffer: seq<bv8>)
    requires c.Wrote(log) && StandsFor(tag, t, ty, id, size) && Writable(t) && t.size == |data|
    modifies c
    ensures err == if old(|c.prog|) + 4 + |data| > c.end then NOSPC else 0
    ensures err == 0 ==> found == Some(t) && buffer == data
  {
    hide TypeOf, TagOf, DSize, Strip, Holds, End, PTag, Records, LookupMoved, IsSplice, Unspliced, Answers, StandsFor;
    StandingFor(tag, t, ty, id, size);
    WritableFacts(t);
    ghost var s := Stored(Strip(tag), data);
    err := c.CommitAttr(tag, data, log);
    if err != 0 {
      return err, None, [];
    }
    CommittedFound(log, s, t);
    err, found, buffer := GetSlice(c.prog, |c.prog|, c.ptag, true, 0x7ff, t.ty, t.id, 0, |data|, None, log + [s]);
    WholeAnswer(err, found, buffer, Attr(t.ty, t.size, data), t.id);
  }

  /** The answer to a lookup of the whole attribute. */
  lemma WholeAnswer(err: int, found: Option<Tag>, buffer: seq<bv8>, a: Attr, id: int)
    requires a.size == |a.data| && Answers(err, found, buffer, Some(a), true, id, 0, |a.data|)
    ensures err == 0 && found == Some(Tag(a.ty, id, a.size)) && buffer == a.data
  {
    WholeFilled(a.data);
  }

  lemma WholeFilled(data: seq<bv8>)
    ensures Filled(From(data, 0), |data|) == data
  {
    assert data[0..] == data && data[..|data|] == data;
  }
}
