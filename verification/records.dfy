/**
 The records of the directory: 64 bytes each, a name of up to 32 bytes, four bytes of type and four of
 inode number, the least significant first, and 24 bytes that mean nothing.
 */
module Records {
  import opened Text
  import opened Directory
  import opened Processes

  // ---- What the kernel reads ----

  /** Four bytes, the least significant first. */
  function LittleEndian(mem: seq<byte>, at: nat): nat
    requires at + 4 <= |mem|
  {
    mem[at] as nat + 0x100 * mem[at + 1] as nat + 0x1_0000 * mem[at + 2] as nat + 0x100_0000 * mem[at + 3] as nat
  }

  /** The type field, as open tells the types apart. */
  function TypeOf(w: nat): FileType {
    if w == 0 then RtcType else if w == 1 then DirType else if w == 2 then FileType else OtherType
  }

  function TypeAt(table: seq<byte>, k: nat): FileType
    requires 64 * k + 64 <= |table|
  {
    TypeOf(LittleEndian(table, 64 * k + 32))
  }

  function InodeAt(table: seq<byte>, k: nat): nat
    requires 64 * k + 64 <= |table|
  {
    LittleEndian(table, 64 * k + 36)
  }

  // ---- What is recorded ----

  predicate IsByte(c: byte) {
    c as nat < 0x100
  }

  /** A directory entry; `pad` is what fills the name field up behind the name, `reserved` the end of the record. */
  datatype Entry = Entry(name: seq<byte>, pad: seq<byte>, fileType: nat, inode: nat, reserved: seq<byte>) {
    predicate Valid() {
      && NUL !in name && |name| + |pad| == 32 && (pad != [] ==> pad[0] == NUL)
      && fileType < 0x1_0000_0000 && inode < 0x1_0000_0000 && |reserved| == 24
    }
  }

  function FourBytes(w: nat): (r: seq<byte>)
    requires w < 0x1_0000_0000
    ensures |r| == 4
  {
    [(w % 0x100) as char, (w / 0x100 % 0x100) as char, (w / 0x1_0000 % 0x100) as char, (w / 0x100_0000) as char]
  }

  function Record(e: Entry): (r: seq<byte>)
    requires e.Valid()
    ensures |r| == 64
  {
    e.name + e.pad + FourBytes(e.fileType) + FourBytes(e.inode) + e.reserved
  }

  /** The record at position `k` of the table is this entry's. */
  ghost predicate StoredAt(table: seq<byte>, k: nat, e: Entry)
    requires 64 * k + 64 <= |table|
  {
    e.Valid() && table[64 * k..64 * k + 64] == Record(e)
  }

  lemma WordBack(w: nat)
    requires w < 0x1_0000_0000
    ensures LittleEndian(FourBytes(w), 0) == w
  {
    assert w == w % 0x100 + 0x100 * (w / 0x100);
    assert w / 0x100 == w / 0x100 % 0x100 + 0x100 * (w / 0x1_0000);
    assert w / 0x1_0000 == w / 0x1_0000 % 0x100 + 0x100 * (w / 0x100_0000);
  }

  lemma FieldBack(mem: seq<byte>, at: nat, w: nat)
    requires at + 4 <= |mem| && w < 0x1_0000_0000 && mem[at..at + 4] == FourBytes(w)
    ensures LittleEndian(mem, at) == w
  {
    WordBack(w);
    var four := mem[at..at + 4];
    assert mem[at] == four[0] && mem[at + 1] == four[1] && mem[at + 2] == four[2] && mem[at + 3] == four[3];
  }

  lemma FieldsOf(e: Entry)
    requires e.Valid()
    ensures var r := Record(e); r[..32] == e.name + e.pad && r[32..36] == FourBytes(e.fileType) && r[36..40] == FourBytes(e.inode)
  {
  }

  lemma {:induction false} NameBack(field: seq<byte>, name: seq<byte>, pad: seq<byte>)
    requires field == name + pad && NUL !in name && (pad != [] ==> pad[0] == NUL)
    ensures BeforeNul(field) == name
  {
    assert field[..|name|] == name;
    BeforeNulIs(field, |name|);
  }

  lemma PartOf(s: seq<byte>, base: nat, n: nat, i: nat, j: nat)
    requires i <= j <= n && base + n <= |s|
    ensures s[base + i..base + j] == s[base..base + n][i..j]
  {
    var a, b := s[base + i..base + j], s[base..base + n][i..j];
    forall t | 0 <= t < j - i ensures a[t] == b[t] {
      assert a[t] == s[base + i + t];
    }
  }

  /** Round trip: reading a record gives exactly the name, the type and the inode number recorded. */
  lemma ReadsBack(table: seq<byte>, k: nat, e: Entry)
    requires 64 * k + 64 <= |table| && StoredAt(table, k, e)
    ensures NameOf(table, k) == e.name && TypeAt(table, k) == TypeOf(e.fileType) && InodeAt(table, k) == e.inode
  {
    var r := table[64 * k..64 * k + 64];
    FieldsOf(e);
    PartOf(table, 64 * k, 64, 0, 32);
    PartOf(table, 64 * k, 64, 32, 36);
    PartOf(table, 64 * k, 64, 36, 40);
    NameBack(table[64 * k..64 * k + 32], e.name, e.pad);
    FieldBack(table, 64 * k + 32, e.fileType);
    FieldBack(table, 64 * k + 36, e.inode);
  }

  lemma LowByte(a: nat, x: nat)
    requires a < 0x100
    ensures (a + 0x100 * x) % 0x100 == a && (a + 0x100 * x) / 0x100 == x
  {
  }

  lemma HighBytes(w: nat)
    ensures w / 0x100 / 0x100 == w / 0x1_0000 && w / 0x1_0000 / 0x100 == w / 0x100_0000
  {
  }

  lemma WordThere(a: byte, b: byte, c: byte, d: byte)
    requires IsByte(a) && IsByte(b) && IsByte(c) && IsByte(d)
    ensures var w := a as nat + 0x100 * b as nat + 0x1_0000 * c as nat + 0x100_0000 * d as nat;
            w < 0x1_0000_0000 && FourBytes(w) == [a, b, c, d]
  {
    var w := a as nat + 0x100 * b as nat + 0x1_0000 * c as nat + 0x100_0000 * d as nat;
    var y := c as nat + 0x100 * d as nat;
    var x := b as nat + 0x100 * y;
    LowByte(a as nat, x);
    LowByte(b as nat, y);
    LowByte(c as nat, d as nat);
    HighBytes(w);
  }

  lemma FieldThere(mem: seq<byte>, at: nat)
    requires at + 4 <= |mem| && forall i :: at <= i < at + 4 ==> IsByte(mem[i])
    ensures LittleEndian(mem, at) < 0x1_0000_0000 && FourBytes(LittleEndian(mem, at)) == mem[at..at + 4]
  {
    WordThere(mem[at], mem[at + 1], mem[at + 2], mem[at + 3]);
    assert mem[at..at + 4] == [mem[at], mem[at + 1], mem[at + 2], mem[at + 3]];
  }

  /** Any 64 bytes are the record of an entry, so what holds of records holds of every table. */
  lemma EveryRecord(table: seq<byte>, k: nat) returns (e: Entry)
    requires 64 * k + 64 <= |table| && forall i :: 64 * k <= i < 64 * k + 64 ==> IsByte(table[i])
    ensures StoredAt(table, k, e)
  {
    var r := table[64 * k..64 * k + 64];
    FieldThere(r, 32);
    FieldThere(r, 36);
    var name := BeforeNul(r[..32]);
    e := Entry(name, r[|name|..32], LittleEndian(r, 32), LittleEndian(r, 36), r[40..]);
    assert e.name + e.pad == r[..32];
    assert r == r[..32] + r[32..36] + r[36..40] + r[40..];
  }

  // ---- The directory ----

  /** The 63 records of the directory are those of these entries. */
  ghost predicate Stored(table: seq<byte>, entries: seq<Entry>) {
    && |entries| == 63 && |table| >= 64 * 64
    && forall k :: 0 <= k < 63 ==> StoredAt(table, k, entries[k])
  }

  /** The first entry from `k` on with exactly this name, 63 if there is none. */
  function FirstNamed(entries: seq<Entry>, fname: seq<byte>, k: nat): (r: nat)
    requires |entries| == 63 && k <= 63
    ensures k <= r <= 63 && (r < 63 ==> entries[r].name == fname)
    ensures forall i :: k <= i < r ==> entries[i].name != fname
    decreases 63 - k
  {
    if k == 63 || entries[k].name == fname then k else FirstNamed(entries, fname, k + 1)
  }
}
