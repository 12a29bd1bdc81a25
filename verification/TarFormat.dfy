/**
  Objects as they travel (pb.Object) and as they sit in a tar (header and body), and the
  normal form an object reaches once it has been written to a tar and read back.
  File modes are Go's fs.FileMode: a 32-bit word, nine permission bits at the bottom,
  the directory bit at 31 and the symlink bit at 27.
*/
module TarFormat {
  import opened Paths

  type Bytes = seq<bv8>

  datatype Object = Object(path: Path, mode: int, size: int, deleted: bool, content: Bytes)

  datatype TarType = Reg | Dir | Symlink

  /** One tar entry: the header fields the program sets, and the body. */
  datatype TarEntry = TarEntry(name: Path, perm: int, kind: TarType, linkname: Bytes, body: Bytes)

  const MODE_WORD := 0x1_0000_0000
  const MODE_DIR := 0x8000_0000
  const MODE_SYMLINK := 0x0800_0000
  const PERM_BITS := 512

  /** fs.FileMode(m): the conversion from int64 keeps the low 32 bits. */
  function FileMode(m: int): (mode: int)
    ensures 0 <= mode < MODE_WORD
  {
    m % MODE_WORD
  }

  function HasBit(mode: int, bit: int): bool
    requires bit > 0
  {
    mode / bit % 2 == 1
  }

  /** The directory bit wins over the symlink bit. */
  function TarTypeFromMode(mode: int): TarType {
    if HasBit(mode, MODE_DIR) then Dir
    else if HasBit(mode, MODE_SYMLINK) then Symlink
    else Reg
  }

  function KindOf(o: Object): TarType {
    TarTypeFromMode(FileMode(o.mode))
  }

  /** TarWriter.WriteObject for an object that is neither deleted nor cached. */
  function Encode(o: Object): (e: TarEntry)
    ensures WellFormed(e)
  {
    var kind := KindOf(o);
    TarEntry(
      o.path,
      FileMode(o.mode) % PERM_BITS,
      kind,
      if kind == Symlink then o.content else [],
      if kind == Reg then o.content else [])
  }

  /** pb.ObjectFromTarHeader. The permission bits and the type bit do not overlap, so `|` is `+`. */
  function Decode(e: TarEntry): Object {
    match e.kind
    case Dir => Object(e.name, e.perm + MODE_DIR, 0, false, e.body)
    case Symlink => Object(e.name, e.perm + MODE_SYMLINK, |e.linkname|, false, e.linkname)
    case Reg => Object(e.name, e.perm, |e.body|, false, e.body)
  }

  /** The entries a tar can hold: nothing but the field its type uses. */
  predicate WellFormed(e: TarEntry) {
    && 0 <= e.perm < PERM_BITS
    && (e.kind != Symlink ==> e.linkname == [])
    && (e.kind != Reg ==> e.body == [])
  }

  function Normal(o: Object): Object {
    Decode(Encode(o))
  }

  /** Reading an entry and writing it again reproduces it exactly. */
  lemma EncodeAfterDecode(e: TarEntry)
    requires WellFormed(e)
    ensures Encode(Decode(e)) == e
  {
    var o := Decode(e);
    assert FileMode(o.mode) == o.mode && o.mode % PERM_BITS == e.perm;
  }

  /**
    The trip through a tar keeps the path, the type, the permission bits and the content
    (a directory has none), makes the size agree with the content, and forgets every
    other mode bit. A second trip changes nothing.
  */
  lemma NormalForm(o: Object)
    ensures var n := Normal(o);
            && n.path == o.path && !n.deleted && n.size == |n.content|
            && KindOf(n) == KindOf(o)
            && n.mode % PERM_BITS == FileMode(o.mode) % PERM_BITS
            && n.mode - n.mode % PERM_BITS in {0, MODE_DIR, MODE_SYMLINK}
            && n.content == (if KindOf(o) == Dir then [] else o.content)
    ensures Normal(Normal(o)) == Normal(o)
  {
    EncodeAfterDecode(Encode(o));
    var n := Normal(o);
    assert FileMode(n.mode) == n.mode;
  }

  /**
    In plain bits: a directory has bit 31 of the mode's low word, a symlink has bit 27 and not bit 31, and what
    comes back is the lowest nine bits and that type bit.
  */
  lemma ModeBits(o: Object)
    ensures var word := o.mode % 0x1_0000_0000;
            && (KindOf(o) == Dir <==> word >= 0x8000_0000)
            && (KindOf(o) == Symlink <==> word < 0x8000_0000 && word / 0x0800_0000 % 2 == 1)
    ensures Encode(o).perm == o.mode % 512
    ensures Normal(o).mode == o.mode % 512 + match KindOf(o) case Dir => 0x8000_0000 case Symlink => 0x0800_0000 case Reg => 0
  {
    var word := o.mode % 0x1_0000_0000;
    assert word == o.mode - o.mode / 0x1_0000_0000 * 0x1_0000_0000;
    assert word % 512 == o.mode % 512;
  }

  /** A mode of nothing but permissions and at most one of the two type bits; a directory has no content. */
  predicate Plain(mode: int, content: Bytes) {
    || 0 <= mode < PERM_BITS
    || MODE_SYMLINK <= mode < MODE_SYMLINK + PERM_BITS
    || (MODE_DIR <= mode < MODE_DIR + PERM_BITS && content == [])
  }

  /** Mode and content survive the trip through a tar if and only if they are plain. */
  lemma PlainIff(o: Object)
    ensures Normal(o).mode == o.mode && Normal(o).content == o.content <==> Plain(o.mode, o.content)
  {
    ModeBits(o);
    NormalForm(o);
    assert o.content == [] || KindOf(o) != Dir <==> Normal(o).content == o.content;
    if Normal(o).mode == o.mode {
      assert FileMode(o.mode) == o.mode;
    }
  }
}
