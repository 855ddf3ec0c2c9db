/** Name lookup in the directory: 63 records of 64 bytes, names of up to 32 bytes, not always terminated. */
module Directory {
  import opened Text

  /** Byte `i` of a C string. */
  function CharAt(s: seq<byte>, i: nat): byte
    requires i <= |s|
  {
    if i < |s| then s[i] else NUL
  }

  /** The memory at `base` and the string agree on `n` characters, or up to and including the NUL. */
  ghost predicate Agree(mem: seq<byte>, base: nat, s: seq<byte>, n: nat)
    requires base + n <= |mem|
  {
    forall i :: 0 <= i < n && i <= |s| ==> mem[base + i] == CharAt(s, i)
  }

  /** strncmp of the memory at `base` with a string. */
  method Strncmp(mem: seq<byte>, base: nat, s: seq<byte>, n: nat) returns (r: int)
    requires base + n <= |mem| && NUL !in s
    ensures r == 0 <==> Agree(mem, base, s, n)
  {
    var i := 0;
    while i < n
      invariant 0 <= i <= n && i <= |s|
      invariant forall j :: 0 <= j < i ==> mem[base + j] == CharAt(s, j)
    {
      if mem[base + i] != CharAt(s, i) || mem[base + i] == NUL {
        return mem[base + i] as int - CharAt(s, i) as int;
      }
      i := i + 1;
    }
    return 0;
  }

  /** The name stored in record `k`: up to its first NUL, and never more than 32 bytes. */
  function NameOf(table: seq<byte>, k: nat): seq<byte>
    requires 64 * k + 32 <= |table|
  {
    BeforeNul(table[64 * k..64 * k + 32])
  }

  /** strlen of a stored name, cut off at 32. */
  method NameLength(table: seq<byte>, k: nat) returns (n: nat)
    requires 64 * k + 32 <= |table|
    ensures n == |NameOf(table, k)|
  {
    ghost var field := table[64 * k..64 * k + 32];
    n := 0;
    while n < 32 && table[64 * k + n] != NUL
      invariant n <= 32 && NUL !in field[..n]
    {
      assert table[64 * k + n] == field[n];
      assert field[..n + 1] == field[..n] + [field[n]];
      n := n + 1;
    }
    assert n < 32 ==> field[n] == table[64 * k + n];
    BeforeNulIs(field, n);
  }

  /**
   The test read_dentry_by_name makes: the record agrees with the name on all of the name, and on all
   of the record's own name.
   */
  ghost predicate Accepts(table: seq<byte>, k: nat, fname: seq<byte>)
    requires 64 * k + 64 <= |table| && 64 * k + |fname| <= |table|
  {
    && fname != []
    && Agree(table, 64 * k, fname, |fname|)
    && Agree(table, 64 * k, fname, |NameOf(table, k)|)
  }

  lemma AgreeOnAll(mem: seq<byte>, base: nat, s: seq<byte>)
    requires base + |s| <= |mem|
    ensures Agree(mem, base, s, |s|) <==> mem[base..base + |s|] == s
  {
    var part := mem[base..base + |s|];
    assert forall i :: 0 <= i < |s| ==> part[i] == mem[base + i] && CharAt(s, i) == s[i];
  }

  /** Once a record agrees with all of a NUL-free name, it agrees with more exactly if its own name is no longer. */
  lemma AgreeOnStored(table: seq<byte>, k: nat, fname: seq<byte>)
    requires 64 * k + 64 <= |table| && 64 * k + |fname| <= |table| && NUL !in fname
    requires Agree(table, 64 * k, fname, |fname|)
    ensures Agree(table, 64 * k, fname, |NameOf(table, k)|) <==> |NameOf(table, k)| <= |fname|
    ensures |NameOf(table, k)| < 32 ==> |fname| <= |NameOf(table, k)|
  {
    var field := table[64 * k..64 * k + 32];
    var name := NameOf(table, k);
    assert forall i :: 0 <= i < 32 ==> field[i] == table[64 * k + i];
    if |name| > |fname| {
      assert CharAt(fname, |fname|) == NUL && name[|fname|] in name;
    }
    assert |name| < 32 ==> table[64 * k + |name|] == NUL;
    assert |name| < 32 && |name| <= |fname| ==> CharAt(fname, |name|) == NUL;
    assert forall i :: 0 <= i < |fname| ==> CharAt(fname, i) in fname;
  }

  /**
   For a non-empty name of at most 32 bytes the test is equality: proper prefixes and extensions are
   rejected, and a name that fills its field without a NUL is matched in full.
   */
  lemma AcceptsIsEquality(table: seq<byte>, k: nat, fname: seq<byte>)
    requires 64 * k + 64 <= |table| && 64 * k + |fname| <= |table| && NUL !in fname
    requires 0 < |fname| <= 32
    ensures Accepts(table, k, fname) <==> NameOf(table, k) == fname
  {
    var field := table[64 * k..64 * k + 32];
    var name := NameOf(table, k);
    AgreeOnAll(table, 64 * k, fname);
    assert table[64 * k..64 * k + |fname|] == field[..|fname|];
    if Agree(table, 64 * k, fname, |fname|) {
      AgreeOnStored(table, k, fname);
    }
  }

  /**
   A longer name is accepted exactly when the record's name fills its 32 bytes and the bytes behind
   it in memory, which belong to other fields, happen to continue it.
   */
  lemma AcceptsLongName(table: seq<byte>, k: nat, fname: seq<byte>)
    requires 64 * k + 64 <= |table| && 64 * k + |fname| <= |table| && NUL !in fname
    requires |fname| > 32
    ensures Accepts(table, k, fname) <==>
              |NameOf(table, k)| == 32 && table[64 * k..64 * k + |fname|] == fname
  {
    AgreeOnAll(table, 64 * k, fname);
    if Agree(table, 64 * k, fname, |fname|) {
      AgreeOnStored(table, k, fname);
    }
  }

  /** A directory of one file, whose name fills its field: that name with a byte of the file type behind it is accepted. */
  lemma LongNameAccepted() returns (table: seq<byte>, fname: seq<byte>)
    ensures |table| == 4096 && |fname| == 33 && NUL !in fname && Accepts(table, 0, fname)
    ensures forall k :: 0 <= k < 63 ==> NameOf(table, k) != fname
  {
    fname := Repeat('a', 32) + [2 as char];
    table := fname + Repeat(NUL, 4063);
    var field := table[64 * 0..64 * 0 + 32];
    assert NUL !in field[..32] && field[..32] == field;
    BeforeNulIs(field, 32);
    assert table[64 * 0..64 * 0 + |fname|] == fname;
    AcceptsLongName(table, 0, fname);
  }

  datatype Option<T> = None | Some(value: T)

  /** read_dentry_by_name: the first record that passes the test. */
  method ReadDentryByName(table: seq<byte>, fname: seq<byte>) returns (r: Option<nat>)
    requires |table| >= 64 * 63 + |fname| && NUL !in fname
    ensures r.Some? ==> r.value < 63 && Accepts(table, r.value, fname)
    ensures forall k :: 0 <= k < (if r.Some? then r.value else 63) ==> !Accepts(table, k, fname)
  {
    var index := 0;
    while index < 63
      invariant 0 <= index <= 63
      invariant forall k :: 0 <= k < index ==> !Accepts(table, k, fname)
    {
      var len := NameLength(table, index);
      var whole := Strncmp(table, 64 * index, fname, |fname|);
      var stored := Strncmp(table, 64 * index, fname, len);
      if whole == 0 && stored == 0 && |fname| > 0 {
        return Some(index);
      }
      index := index + 1;
    }
    return None;
  }

  /** Lookup of a name of at most 32 bytes finds the first record whose name it is, if there is one. */
  method Lookup(table: seq<byte>, fname: seq<byte>) returns (r: Option<nat>)
    requires |table| >= 64 * 63 + |fname| && NUL !in fname
    requires |fname| <= 32
    ensures r.Some? ==> r.value < 63 && fname != [] && NameOf(table, r.value) == fname
    ensures fname != [] ==> forall k :: 0 <= k < (if r.Some? then r.value else 63) ==> NameOf(table, k) != fname
  {
    r := ReadDentryByName(table, fname);
    if fname != [] {
      forall k | 0 <= k < 63 ensures Accepts(table, k, fname) <==> NameOf(table, k) == fname {
        AcceptsIsEquality(table, k, fname);
      }
    }
  }
}
