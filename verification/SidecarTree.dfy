/**
  The bytes behind the identity of the knowledge sidecar: a domain, then for
  each file the length of its name, the name, its size and its content. The
  encoding can be read back, so it identifies the contents of all files.
 */
module SidecarTree {
  import opened Wrappers
  import opened Hashing

  const DOMAIN := Ascii("aetherops-knowledge-sidecar-tree-v1\0")

  const NAMES := ["index.cjs", "protocol.cjs", "worker.cjs"]

  function Ascii(s: string): (b: Bytes)
    ensures |b| == |s|
  {
    seq(|s|, i requires 0 <= i < |s| => (s[i] as int % 0x100) as byte)
  }

  function Power(width: nat): (n: nat)
    ensures n > 0
  {
    if width == 0 then 1 else 0x100 * Power(width - 1)
  }

  // Big-endian numbers

  function BigEndian(n: nat, width: nat): (b: Bytes)
    ensures |b| == width
  {
    if width == 0 then [] else BigEndian(n / 0x100, width - 1) + [(n % 0x100) as byte]
  }

  function ValueOf(b: Bytes): (n: nat)
    ensures n < Power(|b|)
  {
    if b == [] then 0 else 0x100 * ValueOf(b[..|b| - 1]) + b[|b| - 1] as nat
  }

  lemma {:induction false} ReadNumber(n: nat, width: nat)
    requires n < Power(width)
    ensures ValueOf(BigEndian(n, width)) == n
  {
    if width > 0 {
      ReadNumber(n / 0x100, width - 1);
      assert BigEndian(n, width)[..width - 1] == BigEndian(n / 0x100, width - 1);
    }
  }

  lemma {:induction false} WriteNumber(b: Bytes)
    ensures BigEndian(ValueOf(b), |b|) == b
  {
    if b != [] {
      WriteNumber(b[..|b| - 1]);
      assert b == b[..|b| - 1] + [b[|b| - 1]];
    }
  }

  // The encoding

  datatype File = File(name: Bytes, content: Bytes)

  /** The widths of the length fields hold the lengths. */
  predicate Fits(f: File) {
    |f.name| < Power(4) && |f.content| < Power(8)
  }

  function EncodeFile(f: File, rest: Bytes): Bytes {
    BigEndian(|f.name|, 4) + (f.name + (BigEndian(|f.content|, 8) + (f.content + rest)))
  }

  function EncodeFiles(files: seq<File>): Bytes {
    if files == [] then [] else EncodeFile(files[0], EncodeFiles(files[1..]))
  }

  function Encode(files: seq<File>): Bytes {
    DOMAIN + EncodeFiles(files)
  }

  // The decoder

  /** A block behind its length. */
  function DecodeBlock(b: Bytes, width: nat): (r: Option<(Bytes, Bytes)>)
    ensures r.Some? ==> |r.value.1| + width <= |b|
  {
    if |b| < width then None
    else
      var length, rest := ValueOf(b[..width]), b[width..];
      if |rest| < length then None else Some((rest[..length], rest[length..]))
  }

  function DecodeFiles(b: Bytes): Option<seq<File>>
    decreases |b|
  {
    if b == [] then Some([])
    else
      match DecodeBlock(b, 4)
      case None => None
      case Some((name, afterName)) =>
        match DecodeBlock(afterName, 8)
        case None => None
        case Some((content, rest)) =>
          match DecodeFiles(rest)
          case None => None
          case Some(files) => Some([File(name, content)] + files)
  }

  function Decode(b: Bytes): Option<seq<File>> {
    if |b| >= |DOMAIN| && b[..|DOMAIN|] == DOMAIN then DecodeFiles(b[|DOMAIN|..]) else None
  }

  lemma DecodeBlockWritten(block: Bytes, width: nat, rest: Bytes)
    requires |block| < Power(width)
    ensures DecodeBlock(BigEndian(|block|, width) + (block + rest), width) == Some((block, rest))
  {
    var b := BigEndian(|block|, width) + (block + rest);
    ReadNumber(|block|, width);
    assert b[..width] == BigEndian(|block|, width);
    assert b[width..] == block + rest;
    assert (block + rest)[..|block|] == block && (block + rest)[|block|..] == rest;
  }

  lemma DecodeBlockRead(b: Bytes, width: nat)
    requires DecodeBlock(b, width).Some?
    ensures var (block, rest) := DecodeBlock(b, width).value;
            |block| < Power(width) && b == BigEndian(|block|, width) + (block + rest)
  {
    var (block, rest) := DecodeBlock(b, width).value;
    WriteNumber(b[..width]);
    assert b == b[..width] + b[width..];
    assert b[width..] == block + rest;
  }

  lemma {:induction false} DecodeFilesEncoded(files: seq<File>)
    requires forall f <- files :: Fits(f)
    ensures DecodeFiles(EncodeFiles(files)) == Some(files)
  {
    hide DecodeBlock, BigEndian, Power;
    if files != [] {
      var f, rest := files[0], EncodeFiles(files[1..]);
      assert Fits(f);
      DecodeFilesEncoded(files[1..]);
      DecodeBlockWritten(f.name, 4, BigEndian(|f.content|, 8) + (f.content + rest));
      DecodeBlockWritten(f.content, 8, rest);
      assert files == [f] + files[1..];
    }
  }

  lemma {:induction false} EncodeFilesDecoded(b: Bytes)
    requires DecodeFiles(b).Some?
    ensures EncodeFiles(DecodeFiles(b).value) == b && forall f <- DecodeFiles(b).value :: Fits(f)
    decreases |b|
  {
    hide DecodeBlock, BigEndian, Power;
    if b != [] {
      DecodeBlockRead(b, 4);
      var (name, afterName) := DecodeBlock(b, 4).value;
      DecodeBlockRead(afterName, 8);
      var (content, rest) := DecodeBlock(afterName, 8).value;
      EncodeFilesDecoded(rest);
      var files := DecodeFiles(b).value;
      assert files[1..] == DecodeFiles(rest).value;
    }
  }

  /** The decoder inverts the encoding, for any list of files. */
  lemma DecodeInvertsEncode(files: seq<File>)
    requires forall f <- files :: Fits(f)
    ensures Decode(Encode(files)) == Some(files)
  {
    var b := Encode(files);
    assert b[..|DOMAIN|] == DOMAIN && b[|DOMAIN|..] == EncodeFiles(files);
    DecodeFilesEncoded(files);
  }

  /** And it accepts nothing else: what it reads is the encoding of what it returns. */
  lemma DecodeAcceptsOnlyEncodings(b: Bytes)
    ensures Decode(b).Some? <==> exists files :: (forall f <- files :: Fits(f)) && Encode(files) == b
    ensures Decode(b).Some? ==> Encode(Decode(b).value) == b
  {
    if Decode(b).Some? {
      EncodeFilesDecoded(b[|DOMAIN|..]);
      assert b == b[..|DOMAIN|] + b[|DOMAIN|..];
      assert Encode(Decode(b).value) == b;
    }
    forall files: seq<File> | (forall f <- files :: Fits(f)) && Encode(files) == b ensures Decode(b).Some? {
      DecodeInvertsEncode(files);
    }
  }

  // Hashing a directory

  /** What the file system shows of one name; the content read may not have the inspected size. */
  datatype Observed = Observed(found: bool, regular: bool, size: nat, readable: bool, content: Bytes)

  /** Sizes are 64-bit signed integers. */
  const MAX_SIZE := 0x7FFF_FFFF_FFFF_FFFF

  datatype Error = WrongEntrypoint | NotFound | NotRegular | Unreadable | ChangedWhileHashing

  predicate Hashable(o: Observed) {
    o.found && o.regular && o.readable && |o.content| == o.size
  }

  function FilesOf(directory: string -> Observed, names: seq<string>): seq<File> {
    seq(|names|, i requires 0 <= i < |names| => File(Ascii(names[i]), directory(names[i]).content))
  }

  lemma {:induction false} EncodeFilesAppend(files: seq<File>, f: File)
    ensures EncodeFiles(files + [f]) == EncodeFiles(files) + EncodeFile(f, [])
  {
    if files == [] {
      assert files + [f] == [f];
    } else {
      assert (files + [f])[1..] == files[1..] + [f];
      EncodeFilesAppend(files[1..], f);
      EncodeOnto(files[0], EncodeFiles(files[1..]), EncodeFile(f, []));
    }
  }

  lemma EncodeOnto(f: File, a: Bytes, b: Bytes)
    ensures EncodeFile(f, a + b) == EncodeFile(f, a) + b
  {
    var length, size := BigEndian(|f.name|, 4), BigEndian(|f.content|, 8);
    assert f.content + (a + b) == (f.content + a) + b;
    assert size + ((f.content + a) + b) == (size + (f.content + a)) + b;
    assert f.name + ((size + (f.content + a)) + b) == (f.name + (size + (f.content + a))) + b;
  }

  /** What one file adds to the hash. */
  method WriteFile(hashed: Bytes, name: string, info: Observed) returns (r: Result<Bytes, Error>)
    ensures r.Ok? <==> Hashable(info)
    ensures r.Ok? ==> r.value == hashed + EncodeFile(File(Ascii(name), info.content), [])
    ensures r.Err? ==>
              r.error == if !info.found then NotFound else if !info.regular then NotRegular
                         else if !info.readable then Unreadable else ChangedWhileHashing
  {
    hide EncodeFile, Ascii, BigEndian;
    if !info.found {
      return Err(NotFound);
    }
    if !info.regular {
      return Err(NotRegular);
    }
    var writing := hashed + BigEndian(|name|, 4);
    writing := writing + Ascii(name);
    writing := writing + BigEndian(info.size, 8);
    if !info.readable {
      return Err(Unreadable);
    }
    writing := writing + info.content;
    if |info.content| != info.size {
      return Err(ChangedWhileHashing);
    }
    FourWrites(hashed, File(Ascii(name), info.content));
    return Ok(writing);
  }

  /**
    Everything written to the hash. It succeeds exactly when every file was
    regular and was read in full.
   */
  method WriteTree(base: string, directory: string -> Observed) returns (r: Result<Bytes, Error>)
    requires forall name <- NAMES :: directory(name).size <= MAX_SIZE
    ensures r.Ok? <==> base == NAMES[0] && forall name <- NAMES :: Hashable(directory(name))
    ensures r.Ok? ==> r.value == Encode(FilesOf(directory, NAMES))
  {
    hide EncodeFile, Ascii, EncodeFiles, Hashable;
    if base != NAMES[0] {
      return Err(WrongEntrypoint);
    }
    var hashed := DOMAIN;
    NothingYet();
    assert FilesOf(directory, NAMES[..0]) == [];
    for i := 0 to |NAMES|
      invariant forall k | 0 <= k < i :: Hashable(directory(NAMES[k]))
      invariant hashed == DOMAIN + EncodeFiles(FilesOf(directory, NAMES[..i]))
    {
      var name := NAMES[i];
      var next := WriteFile(hashed, name, directory(name));
      if next.Err? {
        return Err(next.error);
      }
      hashed := next.value;
      OneMoreFile(directory, i);
    }
    assert NAMES[..|NAMES|] == NAMES;
    return Ok(hashed);
  }

  /** hashKnowledgeSidecarTree. */
  method HashTree(hash: HashFunction, base: string, directory: string -> Observed) returns (r: Result<string, Error>)
    requires forall name <- NAMES :: directory(name).size <= MAX_SIZE
    ensures r.Ok? <==> base == NAMES[0] && forall name <- NAMES :: Hashable(directory(name))
    ensures r.Ok? ==> r.value == hash(Encode(FilesOf(directory, NAMES)))
  {
    var written := WriteTree(base, directory);
    match written
    case Ok(bytes) => return Ok(hash(bytes));
    case Err(error) => return Err(error);
  }

  lemma NothingYet()
    ensures EncodeFiles([]) == []
  {
  }

  lemma OneMoreFile(directory: string -> Observed, i: nat)
    requires i < |NAMES|
    ensures (DOMAIN + EncodeFiles(FilesOf(directory, NAMES[..i])))
        + EncodeFile(File(Ascii(NAMES[i]), directory(NAMES[i]).content), [])
            == DOMAIN + EncodeFiles(FilesOf(directory, NAMES[..i + 1]))
  {
    hide Ascii, EncodeFile, EncodeFiles;
    var before, file := FilesOf(directory, NAMES[..i]), File(Ascii(NAMES[i]), directory(NAMES[i]).content);
    EncodeFilesAppend(before, file);
    assert FilesOf(directory, NAMES[..i + 1]) == before + [file];
  }

  lemma FourWrites(before: Bytes, f: File)
    ensures before + BigEndian(|f.name|, 4) + f.name + BigEndian(|f.content|, 8) + f.content ==
        before + EncodeFile(f, [])
  {
    assert f.content + [] == f.content;
  }

  /** Equal hashed bytes, or equal digests that are no collision, mean equal contents of all three files. */
  lemma TreesIdentified(hash: HashFunction, a: string -> Observed, b: string -> Observed)
    requires forall name <- NAMES :: Hashable(a(name)) && a(name).size <= MAX_SIZE
    requires forall name <- NAMES :: Hashable(b(name)) && b(name).size <= MAX_SIZE
    ensures Encode(FilesOf(a, NAMES)) == Encode(FilesOf(b, NAMES))
        <==> forall name <- NAMES :: a(name).content == b(name).content
    ensures CollisionFree(hash, {Encode(FilesOf(a, NAMES)), Encode(FilesOf(b, NAMES))}) ==>
              (hash(Encode(FilesOf(a, NAMES))) == hash(Encode(FilesOf(b, NAMES))) <==>
                 forall name <- NAMES :: a(name).content == b(name).content)
  {
    hide Encode, Decode, Ascii;
    var x, y := FilesOf(a, NAMES), FilesOf(b, NAMES);
    NamesFit(a);
    NamesFit(b);
    DecodeInvertsEncode(x);
    DecodeInvertsEncode(y);
    if Encode(x) == Encode(y) {
      assert x == y;
      forall i | 0 <= i < |NAMES| ensures a(NAMES[i]).content == b(NAMES[i]).content {
        assert x[i] == y[i];
      }
    }
    if forall name <- NAMES :: a(name).content == b(name).content {
      assert x == y;
    }
  }

  lemma NamesFit(directory: string -> Observed)
    requires forall name <- NAMES :: Hashable(directory(name)) && directory(name).size <= MAX_SIZE
    ensures forall f <- FilesOf(directory, NAMES) :: Fits(f)
  {
    forall f <- FilesOf(directory, NAMES) ensures Fits(f) {
      var i :| 0 <= i < |NAMES| && f == FilesOf(directory, NAMES)[i];
      assert |NAMES[i]| < 0x100;
      Powers();
    }
  }

  lemma Powers()
    ensures Power(4) == 0x1_0000_0000 && Power(8) == 0x1_0000_0000_0000_0000
  {
    assert Power(4) == 0x1_0000_0000;
    assert Power(5) == 0x100 * Power(4);
    assert Power(6) == 0x100 * Power(5);
    assert Power(7) == 0x100 * Power(6);
  }

  /** The bytes that are hashed, one by one: domain, then length, name, size and content of each file in this order. */
  lemma TreeLayout(directory: string -> Observed)
    ensures var index, protocol, worker :=
              directory("index.cjs").content, directory("protocol.cjs").content, directory("worker.cjs").content;
            Encode(FilesOf(directory, NAMES)) ==
            Ascii("aetherops-knowledge-sidecar-tree-v1\0")
            + ([0, 0, 0, 9] + (Ascii("index.cjs") + (BigEndian(|index|, 8) + (index
            + ([0, 0, 0, 12] + (Ascii("protocol.cjs") + (BigEndian(|protocol|, 8) + (protocol
            + ([0, 0, 0, 10] + (Ascii("worker.cjs") + (BigEndian(|worker|, 8) + (worker + []))))))))))))
  {
    hide Ascii, BigEndian, EncodeFile;
    SmallLengths();
    NothingYet();
    var files := FilesOf(directory, NAMES);
    assert files[2..][1..] == [] && EncodeFiles(files[2..]) == EncodeFile(files[2], EncodeFiles([]));
    assert files[1..][1..] == files[2..] && EncodeFiles(files[1..]) == EncodeFile(files[1], EncodeFiles(files[2..]));
    assert EncodeFiles(files) == EncodeFile(files[0], EncodeFiles(files[1..]));
    FileBytes("worker.cjs", directory("worker.cjs").content, []);
    FileBytes("protocol.cjs", directory("protocol.cjs").content, EncodeFiles(files[2..]));
    FileBytes("index.cjs", directory("index.cjs").content, EncodeFiles(files[1..]));
  }

  lemma FileBytes(name: string, content: Bytes, rest: Bytes)
    ensures EncodeFile(File(Ascii(name), content), rest) ==
            BigEndian(|name|, 4) + (Ascii(name) + (BigEndian(|content|, 8) + (content + rest)))
  {
    hide BigEndian;
  }

  lemma SmallLengths()
    ensures BigEndian(9, 4) == [0, 0, 0, 9] && BigEndian(12, 4) == [0, 0, 0, 12] && BigEndian(10, 4) == [0, 0, 0, 10]
  {
  }

  /** The bytes of a length, most significant first. */
  lemma {:induction false} BigEndianBytes(n: nat, width: nat, k: nat)
    requires k < width
    ensures BigEndian(n, width)[k] as nat == n / Power(width - 1 - k) % 0x100
    decreases width
  {
    if k < width - 1 {
      BigEndianBytes(n / 0x100, width - 1, k);
      DivideTwice(n, Power(width - 2 - k));
    }
  }

  lemma DivideTwice(n: nat, p: nat)
    requires p > 0
    ensures n / 0x100 / p == n / (0x100 * p)
  {
    var a := n / 0x100;
    var b := a / p;
    assert b * p <= a <= b * p + (p - 1);
    assert 0x100 * (b * p) == b * (0x100 * p) && 0x100 * (b * p + p) == (b + 1) * (0x100 * p);
    QuotientIs(n, 0x100 * p, b);
  }

  lemma QuotientIs(n: nat, d: nat, q: nat)
    requires q * d <= n < (q + 1) * d
    ensures n / d == q
  {
    var other := n / d;
    assert other * d <= n < (other + 1) * d;
    Ordered(other + 1, q, d);
    Ordered(q + 1, other, d);
  }

  lemma Ordered(a: nat, b: nat, d: nat)
    ensures a <= b ==> a * d <= b * d
  {
  }
}
