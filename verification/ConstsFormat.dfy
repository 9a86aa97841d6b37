/** The SACN constants file: the writer of pack_consts.py and the reader SamuraiConsts.load. */
module ConstsFormat {
  import opened Options

  type Byte = b: nat | b < 256

  const TWO31: nat := 0x8000_0000
  const TWO32: nat := 0x1_0000_0000
  const TWO64: nat := 0x1_0000_0000_0000_0000
  const MAGIC: nat := 0x5341434E

  // ---------------------------------------------------------------- words

  /** struct.pack("<I", v) */
  function Word(v: nat): (s: seq<Byte>)
    requires v < TWO32
    ensures |s| == 4
  {
    [v % 256, v / 256 % 256, v / 65536 % 256, v / 16777216]
  }

  function WordValue(s: seq<Byte>): (v: nat)
    requires |s| == 4
    ensures v < TWO32
  {
    (s[0] as int) + 256 * (s[1] as int) + 65536 * (s[2] as int) + 16777216 * (s[3] as int)
  }

  lemma WordRoundTrip(v: nat)
    requires v < TWO32
    ensures WordValue(Word(v)) == v
  {
    var a, b := v / 256, v / 65536;
    assert v == 256 * a + v % 256;
    assert a == 256 * b + a % 256 by { assert a / 256 == b; }
    assert b == 256 * (v / 16777216) + b % 256 by { assert b / 256 == v / 16777216; }
  }

  predicate AllWords(vs: seq<nat>) {
    forall i :: 0 <= i < |vs| ==> vs[i] < TWO32
  }

  function Words(vs: seq<nat>): (s: seq<Byte>)
    requires AllWords(vs)
    ensures |s| == 4 * |vs|
  {
    if vs == [] then [] else Words(vs[..|vs| - 1]) + Word(vs[|vs| - 1])
  }

  function WordValues(s: seq<Byte>): (vs: seq<nat>)
    requires |s| % 4 == 0
    ensures |vs| == |s| / 4 && AllWords(vs)
  {
    if s == [] then [] else WordValues(s[..|s| - 4]) + [WordValue(s[|s| - 4..])]
  }

  lemma {:induction false} WordsRoundTrip(vs: seq<nat>)
    requires AllWords(vs)
    ensures WordValues(Words(vs)) == vs
  {
    hide Word, WordValue;
    if vs == [] {
    } else {
      var front, last := vs[..|vs| - 1], vs[|vs| - 1];
      WordsRoundTrip(front);
      WordRoundTrip(last);
      var s := Words(vs);
      assert s == Words(front) + Word(last);
      assert s[..|s| - 4] == Words(front) && s[|s| - 4..] == Word(last);
    }
  }

  function Product(dims: seq<nat>): nat {
    if dims == [] then 1 else Product(dims[..|dims| - 1]) * dims[|dims| - 1]
  }

  // ---------------------------------------------------------------- the writer

  /** One numpy array of the dictionary: its shape and its float32 bit patterns. */
  datatype Item = Item(name: seq<Byte>, dims: seq<nat>, data: seq<nat>)

  /** What struct.pack accepts and numpy guarantees. */
  predicate ItemOk(it: Item) {
    && |it.name| < TWO32 && |it.dims| < TWO32 && AllWords(it.dims) && AllWords(it.data)
    && Product(it.dims) == |it.data| < TWO64
  }

  predicate ItemsOk(items: seq<Item>) {
    |items| < TWO32 && forall i :: 0 <= i < |items| ==> ItemOk(items[i])
  }

  function PackItem(it: Item): seq<Byte>
    requires ItemOk(it)
  {
    Word(|it.name|) + it.name + Word(|it.dims|) + Words(it.dims) + Words(it.data)
  }

  function PackItems(items: seq<Item>): seq<Byte>
    requires forall i :: 0 <= i < |items| ==> ItemOk(items[i])
  {
    if items == [] then [] else PackItems(items[..|items| - 1]) + PackItem(items[|items| - 1])
  }

  function Pack(items: seq<Item>): seq<Byte>
    requires ItemsOk(items)
  {
    Word(MAGIC) + Word(|items|) + PackItems(items)
  }

  /** The writing loop of pack_consts.py over the dictionary's items. */
  method WriteFile(items: seq<Item>) returns (f: seq<Byte>)
    requires ItemsOk(items)
    ensures f == Pack(items)
  {
    hide Word, Words, PackItem, Product;
    f := Word(MAGIC) + Word(|items|);
    ghost var head := f;
    for i := 0 to |items|
      invariant f == head + PackItems(items[..i])
    {
      var it := items[i];
      ghost var before := f;
      f := f + Word(|it.name|);
      f := f + it.name;
      f := f + Word(|it.dims|);
      f := f + Words(it.dims);
      f := f + Words(it.data);
      WrittenItem(before, it);
      assert items[..i + 1][..i] == items[..i];
      assert f == before + PackItem(it);
    }
    assert items[..|items|] == items;
  }

  lemma WrittenItem(f: seq<Byte>, it: Item)
    requires ItemOk(it)
    ensures f + Word(|it.name|) + it.name + Word(|it.dims|) + Words(it.dims) + Words(it.data) == f + PackItem(it)
  {
    hide Word, Words, Product;
    Regroup(f, Word(|it.name|), it.name, Word(|it.dims|), Words(it.dims), Words(it.data));
  }

  lemma Regroup(f: seq<Byte>, a: seq<Byte>, b: seq<Byte>, c: seq<Byte>, d: seq<Byte>, e: seq<Byte>)
    ensures f + a + b + c + d + e == f + (a + b + c + d + e)
  {
  }

  // ---------------------------------------------------------------- the reader

  /** The shape is stored in ints. */
  function ToInt32(d: nat): int {
    if d < TWO31 then d else d - TWO32
  }

  datatype Tensor = Tensor(shape: seq<int>, data: seq<nat>)

  function Shape(dims: seq<nat>): (s: seq<int>)
    ensures |s| == |dims| && forall i :: 0 <= i < |s| ==> s[i] == ToInt32(dims[i])
  {
    seq(|dims|, i requires 0 <= i < |dims| => ToInt32(dims[i]))
  }

  /** Each Read function is a value and the cursor after it, or None at end of file. */
  function ReadWord(f: seq<Byte>, pos: nat): (r: Option<(nat, nat)>)
    ensures r.Some? ==> r.value.0 < TWO32 && r.value.1 == pos + 4 <= |f|
  {
    if pos + 4 <= |f| then Some((WordValue(f[pos..pos + 4]), pos + 4)) else None
  }

  function ReadBytes(f: seq<Byte>, pos: nat, n: nat): Option<(seq<Byte>, nat)> {
    if pos + n <= |f| then Some((f[pos..pos + n], pos + n)) else None
  }

  function ReadDims(f: seq<Byte>, pos: nat, n: nat): (r: Option<(seq<nat>, nat)>)
    ensures r.Some? ==> |r.value.0| == n && AllWords(r.value.0) && r.value.1 == pos + 4 * n
  {
    if n == 0 then Some(([], pos))
    else
      match ReadDims(f, pos, n - 1)
      case None => None
      case Some((dims, p)) =>
        match ReadWord(f, p)
        case None => None
        case Some((d, q)) => Some((dims + [d], q))
  }

  function ReadData(f: seq<Byte>, pos: nat, n: nat): Option<(seq<nat>, nat)> {
    if pos + 4 * n <= |f| then Some((WordValues(f[pos..pos + 4 * n]), pos + 4 * n)) else None
  }

  datatype Entry = Entry(name: seq<Byte>, tensor: Tensor, next: nat)

  function ReadName(f: seq<Byte>, pos: nat): (r: Option<(seq<Byte>, nat)>)
    ensures r.Some? ==> r.value.1 >= pos
  {
    match ReadWord(f, pos)
    case None => None
    case Some((n, p)) => ReadBytes(f, p, n)
  }

  function ReadRank(f: seq<Byte>, pos: nat): (r: Option<(seq<nat>, nat)>)
    ensures r.Some? ==> r.value.1 >= pos
  {
    match ReadWord(f, pos)
    case None => None
    case Some((n, p)) => ReadDims(f, p, n)
  }

  function ReadEntry(f: seq<Byte>, pos: nat): (r: Option<Entry>)
    ensures r.Some? ==> r.value.next >= pos
  {
    match ReadName(f, pos)
    case None => None
    case Some((name, p)) =>
      match ReadRank(f, p)
      case None => None
      case Some((dims, q)) =>
        match ReadData(f, q, Product(dims) % TWO64)
        case None => None
        case Some((data, next)) => Some(Entry(name, Tensor(Shape(dims), data), next))
  }

  type Table = map<seq<Byte>, Tensor>

  function ReadEntries(f: seq<Byte>, pos: nat, count: nat, table: Table): (r: Option<(Table, nat)>)
    ensures r.Some? ==> r.value.1 >= pos
  {
    if count == 0 then Some((table, pos))
    else
      match ReadEntries(f, pos, count - 1, table)
      case None => None
      case Some((t, p)) =>
        match ReadEntry(f, p)
        case None => None
        case Some(e) => Some((t[e.name := e.tensor], e.next))
  }

  /** The table after loading a file into `table`; None when load returns false. */
  function Loaded(f: seq<Byte>, table: Table): Option<Table> {
    match ReadWord(f, 0)
    case None => None
    case Some((magic, p)) =>
      match ReadWord(f, p)
      case None => None
      case Some((count, q)) =>
        if magic != MAGIC then None
        else
          match ReadEntries(f, q, count, table)
          case None => None
          case Some((t, _)) => Some(t)
  }

  /** The number of tensors announced, when the magic and the count can be read. */
  function Announced(f: seq<Byte>): Option<nat> {
    match ReadWord(f, 0)
    case None => None
    case Some((magic, p)) =>
      match ReadWord(f, p)
      case None => None
      case Some((count, _)) => if magic == MAGIC then Some(count) else None
  }

  /** `t` is `table` with the first i tensors of the file inserted, and the next one cannot be read. */
  predicate StopsAt(f: seq<Byte>, table: Table, t: Table, i: nat) {
    && Announced(f).Some? && i < Announced(f).value
    && ReadEntries(f, 8, i, table).Some? && ReadEntries(f, 8, i, table).value.0 == t
    && ReadEntries(f, 8, i + 1, table).None?
  }

  /** That makes i the longest readable run of tensors. */
  lemma StopsAtLongest(f: seq<Byte>, table: Table, t: Table, i: nat, j: nat)
    requires StopsAt(f, table, t, i)
    ensures ReadEntries(f, 8, j, table).Some? <==> j <= i
  {
    hide ReadEntry;
    if j <= i {
      if ReadEntries(f, 8, j, table).None? { EntriesFail(f, 8, j, i, table); }
    } else {
      EntriesFail(f, 8, i + 1, j, table);
    }
  }

  class SamuraiConsts {
    var tensors: Table

    constructor ()
      ensures tensors == map[]
    {
      tensors := map[];
    }

    /** load: the loops over a file cursor. A rejected file leaves the longest readable run of its
        tensors in the table. */
    method Load(f: seq<Byte>) returns (ok: bool)
      modifies this
      ensures ok <==> Loaded(f, old(tensors)).Some?
      ensures ok ==> tensors == Loaded(f, old(tensors)).value
      ensures !ok ==> if Announced(f).None? then tensors == old(tensors) else exists i :: StopsAt(f, old(tensors), tensors, i)
    {
      hide ReadEntry, ReadWord;
      var m := ReadWord(f, 0);
      if m.None? { return false; }
      var c := ReadWord(f, m.value.1);
      if c.None? || m.value.0 != MAGIC { return false; }
      var count, pos := c.value.0, c.value.1;
      ghost var start := pos;
      for i := 0 to count
        invariant ReadEntries(f, start, i, old(tensors)) == Some((tensors, pos))
      {
        ReadEntriesStep(f, start, i, old(tensors));
        var e := ReadTensor(f, pos);
        if e.None? {
          assert StopsAt(f, old(tensors), tensors, i);
          EntriesFail(f, start, i + 1, count, old(tensors));
          return false;
        }
        tensors := tensors[e.value.name := e.value.tensor];
        pos := e.value.next;
      }
      return true;
    }
  }

  /** The body of the tensor loop up to the insertion. */
  method ReadTensor(f: seq<Byte>, pos: nat) returns (e: Option<Entry>)
    ensures e == ReadEntry(f, pos)
  {
    hide ReadWord, ReadBytes, ReadDims, ReadData, Product, Shape;
    e := None;
    var nlen := ReadWord(f, pos);
    if nlen.None? { return; }
    var name := ReadBytes(f, nlen.value.1, nlen.value.0);
    if name.None? { return; }
    var ndim := ReadWord(f, name.value.1);
    if ndim.None? { return; }
    var okDims, shape, n, p := ReadShape(f, ndim.value.1, ndim.value.0);
    if !okDims { return; }
    var data := ReadData(f, p, n);
    if data.None? { return; }
    e := Some(Entry(name.value.0, Tensor(shape, data.value.0), data.value.1));
  }

  /** The dimension loop: the shape, and the element count modulo 2^64. */
  method ReadShape(f: seq<Byte>, start: nat, ndim: nat) returns (ok: bool, shape: seq<int>, n: nat, pos: nat)
    ensures ok <==> ReadDims(f, start, ndim).Some?
    ensures ok ==> var (dims, p) := ReadDims(f, start, ndim).value;
                   shape == Shape(dims) && n == Product(dims) % TWO64 && pos == p
  {
    ok, shape, n, pos := true, [], 1, start;
    for d := 0 to ndim
      invariant ReadDims(f, start, d).Some?
      invariant var (dims, p) := ReadDims(f, start, d).value;
                shape == Shape(dims) && n == Product(dims) % TWO64 && pos == p
    {
      ghost var dims := ReadDims(f, start, d).value.0;
      var w := ReadWord(f, pos);
      if w.None? {
        DimsFail(f, start, d + 1, ndim);
        return false, shape, n, pos;
      }
      var dim := w.value.0;
      assert ReadDims(f, start, d + 1).value.0 == dims + [dim];
      assert (dims + [dim])[..d] == dims;
      ProductWraps(Product(dims), dim);
      shape := shape + [ToInt32(dim)];
      n := (n * dim) % TWO64;
      pos := w.value.1;
    }
  }

  lemma {:induction false} DimsFail(f: seq<Byte>, pos: nat, d: nat, n: nat)
    requires d <= n && ReadDims(f, pos, d).None?
    ensures ReadDims(f, pos, n).None?
  {
    if d >= n {
    } else {
      DimsFail(f, pos, d, n - 1);
    }
  }

  lemma {:induction false} EntriesFail(f: seq<Byte>, pos: nat, i: nat, n: nat, table: Table)
    requires i <= n && ReadEntries(f, pos, i, table).None?
    ensures ReadEntries(f, pos, n, table).None?
  {
    hide ReadEntry;
    if i >= n {
    } else {
      EntriesFail(f, pos, i, n - 1, table);
    }
  }

  lemma ReadEntriesStep(f: seq<Byte>, pos: nat, i: nat, table: Table)
    requires ReadEntries(f, pos, i, table).Some?
    ensures var (t, p) := ReadEntries(f, pos, i, table).value;
            ReadEntries(f, pos, i + 1, table)
            == match ReadEntry(f, p)
               case None => None
               case Some(e) => Some((t[e.name := e.tensor], e.next))
  {
    hide ReadEntry;
  }

  lemma ProductWraps(p: nat, d: nat)
    ensures ((p % TWO64) * d) % TWO64 == (p * d) % TWO64
  {
    var q, r := p / TWO64, p % TWO64;
    assert p * d == r * d + (q * d) * TWO64 by { assert p == q * TWO64 + r; }
    WholeTurns(r * d, q * d);
  }

  lemma WholeTurns(a: nat, k: nat)
    ensures (a + k * TWO64) % TWO64 == a % TWO64
  {
  }

  // ---------------------------------------------------------------- round trip

  /** The bytes `s` stand in `f` at `pos`. */
  predicate At(f: seq<Byte>, pos: nat, s: seq<Byte>) {
    pos + |s| <= |f| && f[pos..pos + |s|] == s
  }

  lemma AtConcat(f: seq<Byte>, pos: nat, a: seq<Byte>, b: seq<Byte>)
    requires At(f, pos, a + b)
    ensures At(f, pos, a) && At(f, pos + |a|, b)
  {
    var m := pos + |a|;
    assert f[pos..m] == f[pos..m + |b|][..|a|] == (a + b)[..|a|] == a;
    assert f[m..m + |b|] == f[pos..m + |b|][|a|..] == (a + b)[|a|..] == b;
  }

  lemma ReadWordAt(f: seq<Byte>, pos: nat, v: nat)
    requires v < TWO32 && At(f, pos, Word(v))
    ensures ReadWord(f, pos) == Some((v, pos + 4))
  {
    hide Word, WordValue;
    WordRoundTrip(v);
  }

  lemma {:induction false} ReadDimsAt(f: seq<Byte>, pos: nat, dims: seq<nat>)
    requires AllWords(dims) && At(f, pos, Words(dims))
    ensures ReadDims(f, pos, |dims|) == Some((dims, pos + 4 * |dims|))
  {
    hide ReadWord, Word, At;
    if dims == [] {
    } else {
      var front, last := dims[..|dims| - 1], dims[|dims| - 1];
      AtConcat(f, pos, Words(front), Word(last));
      ReadDimsAt(f, pos, front);
      ReadWordAt(f, pos + 4 * |front|, last);
      assert front + [last] == dims;
    }
  }

  lemma ReadDataAt(f: seq<Byte>, pos: nat, data: seq<nat>)
    requires AllWords(data) && At(f, pos, Words(data))
    ensures ReadData(f, pos, |data|) == Some((data, pos + 4 * |data|))
  {
    hide WordValues, Words, AllWords;
    WordsRoundTrip(data);
    assert f[pos..pos + 4 * |data|] == Words(data);
  }

  lemma ItemParts(f: seq<Byte>, pos: nat, it: Item)
    requires ItemOk(it) && At(f, pos, PackItem(it))
    ensures At(f, pos, Word(|it.name|)) && At(f, pos + 4, it.name)
    ensures At(f, pos + 4 + |it.name|, Word(|it.dims|))
    ensures At(f, pos + 8 + |it.name|, Words(it.dims))
    ensures At(f, pos + 8 + |it.name| + 4 * |it.dims|, Words(it.data))
  {
    hide Word, Words, At;
    var a, b, c := Word(|it.name|), it.name, Word(|it.dims|);
    AtConcat(f, pos, a + b + c + Words(it.dims), Words(it.data));
    AtConcat(f, pos, a + b + c, Words(it.dims));
    AtConcat(f, pos, a + b, c);
    AtConcat(f, pos, a, b);
  }

  function TensorOf(it: Item): Tensor {
    Tensor(Shape(it.dims), it.data)
  }

  lemma ReadEntryAt(f: seq<Byte>, pos: nat, it: Item)
    requires ItemOk(it) && At(f, pos, PackItem(it))
    ensures ReadEntry(f, pos) == Some(Entry(it.name, TensorOf(it), pos + |PackItem(it)|))
  {
    hide ReadWord, ReadDims, ReadData, Word, Words, Product, Shape, AllWords;
    ItemParts(f, pos, it);
    var p1 := pos + 4;
    var p2 := p1 + |it.name|;
    var p4 := p2 + 4 + 4 * |it.dims|;
    ReadWordAt(f, pos, |it.name|);
    ReadWordAt(f, p2, |it.dims|);
    ReadDimsAt(f, p2 + 4, it.dims);
    assert Product(it.dims) % TWO64 == |it.data|;
    ReadDataAt(f, p4, it.data);
  }

  /** The items inserted in order; a later item of the same name replaces an earlier one. */
  function TableOf(items: seq<Item>, table: Table): Table {
    if items == [] then table
    else
      var it := items[|items| - 1];
      TableOf(items[..|items| - 1], table)[it.name := TensorOf(it)]
  }

  predicate AllOk(items: seq<Item>) {
    forall i :: 0 <= i < |items| ==> ItemOk(items[i])
  }

  lemma {:induction false} ReadEntriesAt(f: seq<Byte>, pos: nat, items: seq<Item>, table: Table)
    requires AllOk(items) && At(f, pos, PackItems(items))
    ensures ReadEntries(f, pos, |items|, table) == Some((TableOf(items, table), pos + |PackItems(items)|))
  {
    hide ReadEntry, PackItem, At, ItemOk, TensorOf;
    if items == [] {
    } else {
      var front, last := items[..|items| - 1], items[|items| - 1];
      assert ItemOk(last);
      AtConcat(f, pos, PackItems(front), PackItem(last));
      ReadEntriesAt(f, pos, front, table);
      ReadEntryAt(f, pos + |PackItems(front)|, last);
    }
  }

  /** The header and every entry of a packed file, read back: trailing bytes are ignored. */
  lemma LoadReadsPack(items: seq<Item>, rest: seq<Byte>, table: Table)
    requires ItemsOk(items)
    ensures var f := Pack(items) + rest;
            && ReadWord(f, 0) == Some((MAGIC, 4)) && ReadWord(f, 4) == Some((|items|, 8))
            && ReadEntries(f, 8, |items|, table) == Some((TableOf(items, table), |Pack(items)|))
    ensures Loaded(Pack(items) + rest, table) == Some(TableOf(items, table))
  {
    hide ReadWord, ReadEntries, PackItems, Word, At, TableOf;
    var a, b, c := Word(MAGIC), Word(|items|), PackItems(items);
    var f := Pack(items) + rest;
    HeadAt(Pack(items), rest);
    AtConcat(f, 0, a + b, c);
    AtConcat(f, 0, a, b);
    ReadWordAt(f, 0, MAGIC);
    ReadWordAt(f, 4, |items|);
    ReadEntriesAt(f, 8, items, table);
  }

  lemma HeadAt(s: seq<Byte>, rest: seq<Byte>)
    ensures At(s + rest, 0, s)
  {
    assert (s + rest)[0..0 + |s|] == s;
  }

  predicate DistinctNames(items: seq<Item>) {
    forall i, j :: 0 <= i < j < |items| ==> items[i].name != items[j].name
  }

  function Names(items: seq<Item>): set<seq<Byte>> {
    set it | it in items :: it.name
  }

  lemma NamesSplit(items: seq<Item>)
    requires items != []
    ensures Names(items) == Names(items[..|items| - 1]) + {items[|items| - 1].name}
  {
    assert items == items[..|items| - 1] + [items[|items| - 1]];
  }

  lemma {:induction false} TableOfExact(items: seq<Item>, table: Table)
    requires DistinctNames(items)
    ensures forall i :: 0 <= i < |items| ==> items[i].name in TableOf(items, table)
    ensures forall i :: 0 <= i < |items| ==> TableOf(items, table)[items[i].name] == TensorOf(items[i])
    ensures TableOf(items, table).Keys == table.Keys + Names(items)
  {
    hide TensorOf;
    if items == [] {
    } else {
      var front, last := items[..|items| - 1], items[|items| - 1];
      TableOfExact(front, table);
      NamesSplit(items);
      hide Names;
      forall i | 0 <= i < |items|
        ensures items[i].name in TableOf(items, table) && TableOf(items, table)[items[i].name] == TensorOf(items[i])
      {
        if i < |front| { assert front[i] == items[i] && items[i].name != last.name; }
      }
    }
  }

  /** A word is the number whose base-256 digits are its bytes, the lowest first. */
  lemma WordDigits(v: nat, a: Byte, b: Byte, c: Byte, d: Byte)
    requires v == (a as int) + 256 * (b as int) + 65536 * (c as int) + 16777216 * (d as int)
    ensures v < TWO32 && Word(v) == [a, b, c, d]
  {
    var p, q := (b as int) + 256 * (c as int) + 65536 * (d as int), (c as int) + 256 * (d as int);
    assert v == (a as int) + 256 * p && v / 256 == p && v % 256 == a as int;
    assert v / 65536 == q && v / 16777216 == d as int;
    assert p % 256 == b as int && q % 256 == c as int;
  }

  /** One tensor "w" of shape [2] holding the words 1 and 258, byte by byte. */
  lemma PackedBytes()
    ensures var it := Item([119], [2], [1, 258]);
            ItemsOk([it]) && Pack([it]) == [0x4E, 0x43, 0x41, 0x53, 1, 0, 0, 0,
                                            1, 0, 0, 0, 119, 1, 0, 0, 0, 2, 0, 0, 0, 1, 0, 0, 0, 2, 1, 0, 0]
  {
    var it := Item([119], [2], [1, 258]);
    OneDimension(2);
    assert ItemOk(it);
    WordDigits(MAGIC, 0x4E, 0x43, 0x41, 0x53);
    WordDigits(1, 1, 0, 0, 0);
    OneItem(it);
    ExampleBytes(it);
    hide *;
    assert Word(MAGIC) + Word(1) == [0x4E, 0x43, 0x41, 0x53, 1, 0, 0, 0];
  }

  lemma ExampleBytes(it: Item)
    requires it == Item([119], [2], [1, 258]) && ItemOk(it)
    ensures PackItem(it) == [1, 0, 0, 0, 119, 1, 0, 0, 0, 2, 0, 0, 0, 1, 0, 0, 0, 2, 1, 0, 0]
  {
    WordDigits(1, 1, 0, 0, 0);
    WordDigits(2, 2, 0, 0, 0);
    WordDigits(258, 2, 1, 0, 0);
    TwoWords(1, 258);
    OneWord(2);
    ItemBytes(it);
    hide *;
    assert Words(it.data) == [1, 0, 0, 0, 2, 1, 0, 0];
    assert Word(|it.name|) + it.name + Word(|it.dims|) + Words(it.dims) == [1, 0, 0, 0, 119, 1, 0, 0, 0, 2, 0, 0, 0];
  }

  lemma ItemBytes(it: Item)
    requires ItemOk(it)
    ensures PackItem(it) == Word(|it.name|) + it.name + Word(|it.dims|) + Words(it.dims) + Words(it.data)
  {
  }

  lemma OneItem(it: Item)
    requires ItemOk(it)
    ensures ItemsOk([it]) && Pack([it]) == Word(MAGIC) + Word(1) + PackItem(it)
  {
    hide ItemOk, Word, PackItem;
    assert [it][..0] == [];
    assert PackItems([it]) == [] + PackItem(it);
  }

  lemma OneDimension(n: nat)
    ensures Product([n]) == n
  {
    assert [n][..0] == [];
  }

  lemma OneWord(v: nat)
    requires v < TWO32
    ensures AllWords([v]) && Words([v]) == Word(v)
  {
    assert [v][..0] == [];
  }

  lemma TwoWords(v: nat, w: nat)
    requires v < TWO32 && w < TWO32
    ensures AllWords([v, w]) && Words([v, w]) == Word(v) + Word(w)
  {
    OneWord(v);
    assert [v, w][..1] == [v];
  }

  /** Loading what was packed gives back exactly the names, the shapes and the data. */
  lemma RoundTrip(items: seq<Item>, rest: seq<Byte>)
    requires ItemsOk(items) && DistinctNames(items)
    ensures Loaded(Pack(items) + rest, map[]).Some?
    ensures var t := Loaded(Pack(items) + rest, map[]).value;
            && t.Keys == Names(items)
            && forall i :: 0 <= i < |items| ==> t[items[i].name] == Tensor(Shape(items[i].dims), items[i].data)
  {
    hide Loaded, Pack, TableOf, Shape, Names;
    LoadReadsPack(items, rest, map[]);
    TableOfExact(items, map[]);
  }

  predicate FitInts(dims: seq<nat>) {
    forall i :: 0 <= i < |dims| ==> dims[i] < TWO31
  }

  /** The shape that comes back is the shape that went in exactly when every dimension fits an int. */
  lemma ShapeExact(dims: seq<nat>)
    requires AllWords(dims)
    ensures Shape(dims) == dims <==> FitInts(dims)
  {
    forall i | 0 <= i < |dims| ensures Shape(dims)[i] == dims[i] <==> dims[i] < TWO31 {
    }
    if FitInts(dims) { assert Shape(dims) == dims; }
  }

  /** The table holds this item as it was written. */
  predicate CameBack(t: Table, it: Item) {
    it.name in t && t[it.name].shape == it.dims && t[it.name].data == it.data
  }

  /** Every tensor comes back as it was written exactly when every dimension fits an int. */
  lemma RoundTripIsExact(items: seq<Item>, rest: seq<Byte>)
    requires ItemsOk(items) && DistinctNames(items)
    ensures Loaded(Pack(items) + rest, map[]).Some?
    ensures var t := Loaded(Pack(items) + rest, map[]).value;
            (forall i :: 0 <= i < |items| ==> CameBack(t, items[i]))
            <==> (forall i :: 0 <= i < |items| ==> FitInts(items[i].dims))
  {
    RoundTrip(items, rest);
    hide Loaded, Pack, Shape, FitInts, DistinctNames;
    var t := Loaded(Pack(items) + rest, map[]).value;
    forall i | 0 <= i < |items| ensures CameBack(t, items[i]) <==> FitInts(items[i].dims) {
      assert ItemOk(items[i]) && items[i] in items && items[i].name in Names(items);
      ShapeExact(items[i].dims);
    }
  }

  /** An empty tensor of shape [2^31, 0] comes back with a negative dimension. */
  lemma LargeDimensionComesBackNegative(name: seq<Byte>)
    requires |name| < TWO32
    ensures var it := Item(name, [TWO31, 0], []);
            && ItemsOk([it]) && Loaded(Pack([it]), map[]).Some?
            && name in Loaded(Pack([it]), map[]).value
            && Loaded(Pack([it]), map[]).value[name].shape == [-2147483648, 0]
  {
    var it := Item(name, [TWO31, 0], []);
    assert Product(it.dims) == 0;
    assert ItemsOk([it]);
    assert Pack([it]) + [] == Pack([it]);
    assert [it][0] == it;
    RoundTrip([it], []);
    assert name in Names([it]) by { assert it in [it]; }
  }

  // ---------------------------------------------------------------- truncation

  lemma CutWord(f: seq<Byte>, k: nat, pos: nat)
    requires pos <= k <= |f|
    ensures ReadWord(f[..k], pos) == if pos + 4 <= k then ReadWord(f, pos) else None
  {
    hide WordValue;
    if pos + 4 <= k { assert f[..k][pos..pos + 4] == f[pos..pos + 4]; }
  }

  lemma CutBytes(f: seq<Byte>, k: nat, pos: nat, n: nat)
    requires pos <= k <= |f|
    ensures ReadBytes(f[..k], pos, n) == if pos + n <= k then ReadBytes(f, pos, n) else None
  {
    if pos + n <= k { assert f[..k][pos..pos + n] == f[pos..pos + n]; }
  }

  lemma CutData(f: seq<Byte>, k: nat, pos: nat, n: nat)
    requires pos <= k <= |f|
    ensures ReadData(f[..k], pos, n) == if pos + 4 * n <= k then ReadData(f, pos, n) else None
  {
    hide WordValues;
    if pos + 4 * n <= k { assert f[..k][pos..pos + 4 * n] == f[pos..pos + 4 * n]; }
  }

  lemma {:induction false} CutDims(f: seq<Byte>, k: nat, pos: nat, n: nat)
    requires pos <= k <= |f|
    ensures ReadDims(f[..k], pos, n) == if pos + 4 * n <= k then ReadDims(f, pos, n) else None
  {
    hide ReadWord;
    if n == 0 {
    } else {
      CutDims(f, k, pos, n - 1);
      var p := pos + 4 * (n - 1);
      if p <= k { CutWord(f, k, p); }
    }
  }

  lemma CutName(f: seq<Byte>, k: nat, pos: nat)
    requires pos <= k <= |f|
    ensures ReadName(f[..k], pos)
            == if ReadName(f, pos).Some? && ReadName(f, pos).value.1 <= k then ReadName(f, pos) else None
  {
    hide WordValue;
    CutWord(f, k, pos);
    if pos + 4 <= k { CutBytes(f, k, pos + 4, ReadWord(f, pos).value.0); }
  }

  lemma CutRank(f: seq<Byte>, k: nat, pos: nat)
    requires pos <= k <= |f|
    ensures ReadRank(f[..k], pos)
            == if ReadRank(f, pos).Some? && ReadRank(f, pos).value.1 <= k then ReadRank(f, pos) else None
  {
    hide WordValue, ReadDims;
    CutWord(f, k, pos);
    if pos + 4 <= k { CutDims(f, k, pos + 4, ReadWord(f, pos).value.0); }
  }

  /** An entry is read the same from a cut file when it ends before the cut, and not at all otherwise. */
  lemma CutEntry(f: seq<Byte>, k: nat, pos: nat)
    requires pos <= k <= |f|
    ensures ReadEntry(f[..k], pos)
            == if ReadEntry(f, pos).Some? && ReadEntry(f, pos).value.next <= k then ReadEntry(f, pos) else None
  {
    hide ReadName, ReadRank, WordValues, Product, Shape;
    CutName(f, k, pos);
    if ReadName(f, pos).Some? {
      var (_, p) := ReadName(f, pos).value;
      if p <= k { CutRank(f, k, p); }
      if ReadRank(f, p).Some? {
        var (dims, q) := ReadRank(f, p).value;
        if q <= k { CutData(f, k, q, Product(dims) % TWO64); }
      }
    }
  }

  lemma {:induction false} CutEntries(f: seq<Byte>, k: nat, pos: nat, n: nat, table: Table)
    requires pos <= k <= |f|
    ensures ReadEntries(f[..k], pos, n, table)
            == (if ReadEntries(f, pos, n, table).Some? && ReadEntries(f, pos, n, table).value.1 <= k
                then ReadEntries(f, pos, n, table) else None)
  {
    hide ReadEntry;
    if n == 0 {
    } else {
      CutEntries(f, k, pos, n - 1, table);
      if ReadEntries(f, pos, n - 1, table).Some? {
        var (_, p) := ReadEntries(f, pos, n - 1, table).value;
        if p <= k { CutEntry(f, k, p); }
      }
    }
  }

  /** Every strict prefix of a packed file is rejected. */
  lemma TruncatedIsRejected(items: seq<Item>, k: nat, table: Table)
    requires ItemsOk(items) && k < |Pack(items)|
    ensures Loaded(Pack(items)[..k], table).None?
  {
    hide ReadWord, ReadEntries, Pack, TableOf;
    var f := Pack(items);
    assert f + [] == f;
    LoadReadsPack(items, [], table);
    CutWord(f, k, 0);
    if 4 <= k { CutWord(f, k, 4); }
    if 8 <= k { CutEntries(f, k, 8, |items|, table); }
  }
}
