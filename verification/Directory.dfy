/** code/filesys/directory.cc: a fixed-size table of (file name, header sector) pairs. */
module Directories {
  import opened Bytes
  import opened FileHeaders
  import opened OpenFiles

  /** sizeof(DirectoryEntry): a bool, three bytes of padding, an int, ten chars, two bytes of padding. */
  const ENTRY_SIZE := 20

  /** The characters of a C string, without its terminating NUL. */
  type CString = s: seq<Byte> | 0 !in s witness []

  function CharAt(s: CString, i: nat): Byte {
    if i < |s| then s[i] else 0
  }

  /** !strncmp(stored, name, 9), from character `i` on. */
  predicate SameName(stored: seq<Byte>, name: CString, i: nat := 0)
    requires |stored| == 10 && i <= 9
    decreases 9 - i
  {
    i == 9 || (stored[i] == CharAt(name, i) && (stored[i] == 0 || SameName(stored, name, i + 1)))
  }

  /** strncpy(stored, name, 9): pads with NULs, leaves the tenth byte alone. */
  function CopyName(stored: seq<Byte>, name: CString): (r: seq<Byte>)
    requires |stored| == 10
    ensures |r| == 10
  {
    seq(10, i requires 0 <= i < 10 => if i < 9 then CharAt(name, i) else stored[i])
  }

  /** File names are significant in their first nine characters. */
  function Key(name: CString): CString {
    if |name| <= 9 then name else name[..9]
  }

  /** The file name held in a directory entry: the characters from `i` on before a NUL or the ninth. */
  function StoredKey(stored: seq<Byte>, i: nat := 0): (k: CString)
    requires |stored| == 10 && i <= 9
    ensures |k| <= 9 - i
    decreases 9 - i
  {
    if i == 9 || stored[i] == 0 then [] else [stored[i]] + StoredKey(stored, i + 1)
  }

  /** The comparison agrees with equality of nine-character names, whatever bytes follow them. */
  lemma {:induction false} SameNameIsEqualKey(stored: seq<Byte>, name: CString, i: nat := 0)
    requires |stored| == 10 && i <= 9
    requires i <= |Key(name)|
    ensures SameName(stored, name, i) <==> StoredKey(stored, i) == Key(name)[i..]
    decreases 9 - i
  {
    var key := Key(name);
    if i < 9 {
      if i < |key| {
        assert key[i..] == [key[i]] + key[i + 1..];
        SameNameIsEqualKey(stored, name, i + 1);
      } else {
        assert key[i..] == [];
      }
    } else {
      assert key[i..] == [];
    }
  }

  lemma {:induction false} CopiedKey(stored: seq<Byte>, name: CString, i: nat := 0)
    requires |stored| == 10 && i <= |Key(name)|
    ensures StoredKey(CopyName(stored, name), i) == Key(name)[i..]
    decreases 9 - i
  {
    if i < |Key(name)| {
      CopiedKey(stored, name, i + 1);
      assert Key(name)[i..] == [Key(name)[i]] + Key(name)[i + 1..];
    } else {
      assert Key(name)[i..] == [];
    }
  }

  datatype EntryData = EntryData(inUse: bool, padA: seq<Byte>, sector: Int32, name: seq<Byte>, padB: seq<Byte>)

  const BLANK_ENTRY := EntryData(false, [0, 0, 0], 0, seq(10, _ => 0), [0, 0])

  type DirectoryEntry = e: EntryData | |e.padA| == 3 && |e.name| == 10 && |e.padB| == 2 witness BLANK_ENTRY

  function EncodeEntry(e: DirectoryEntry): (s: seq<Byte>)
    ensures |s| == 20
  {
    [if e.inUse then 1 else 0] + e.padA + EncodeWord(ToWord(e.sector)) + e.name + e.padB
  }

  function DecodeEntry(s: seq<Byte>): DirectoryEntry
    requires |s| == 20
  {
    EntryData(s[0] != 0, s[1..4], ToInt(DecodeWord(s[4..8])), s[8..18], s[18..20])
  }

  lemma EntryRoundTrip(e: DirectoryEntry)
    ensures DecodeEntry(EncodeEntry(e)) == e
  {
  }

  /** The table as it lies in memory and in the directory file. */
  function EncodeTable(t: seq<DirectoryEntry>): (s: seq<Byte>)
    ensures |s| == 20 * |t|
  {
    seq(20 * |t|, i requires 0 <= i < 20 * |t| => EncodeEntry(t[i / 20])[i % 20])
  }

  function DecodeTable(s: seq<Byte>): (t: seq<DirectoryEntry>)
    ensures |t| == |s| / 20
  {
    seq(|s| / 20, k requires 0 <= k < |s| / 20 => DecodeEntry(s[20 * k..20 * k + 20]))
  }

  lemma TableRoundTrip(t: seq<DirectoryEntry>)
    ensures DecodeTable(EncodeTable(t)) == t
  {
    hide EncodeEntry, DecodeEntry;
    forall k | 0 <= k < |t|
      ensures DecodeTable(EncodeTable(t))[k] == t[k]
    {
      EntryAt(t, k);
      EntryRoundTrip(t[k]);
    }
  }

  lemma EntryAt(t: seq<DirectoryEntry>, k: nat)
    requires k < |t|
    ensures EncodeTable(t)[20 * k..20 * k + 20] == EncodeEntry(t[k])
  {
  }

  /** Where the fields of entry `k` lie in the directory file. */
  lemma EntryLayout(s: seq<Byte>, k: nat)
    requires k < |s| / 20
    ensures var e := DecodeTable(s)[k];
            && e.inUse == (s[20 * k] != 0) && ToWord(e.sector) == LittleEndian(s[20 * k + 4..20 * k + 8])
            && e.name == s[20 * k + 8..20 * k + 18]
  {
    hide LittleEndian, DecodeWord;
    var entry := s[20 * k..20 * k + 20];
    DecodedIsLittleEndian(entry[4..8]);
    forall j | 0 <= j < 20
      ensures entry[j] == s[20 * k + j]
    {
    }
    assert entry[4..8] == s[20 * k + 4..20 * k + 8];
    assert entry[8..18] == s[20 * k + 8..20 * k + 18];
  }

  /** Slot `i` is in use and holds the file name `key`. */
  predicate Holds(t: seq<DirectoryEntry>, i: int, key: CString) {
    0 <= i < |t| && t[i].inUse && StoredKey(t[i].name) == key
  }

  ghost predicate InTable(t: seq<DirectoryEntry>, key: CString) {
    exists i :: Holds(t, i, key)
  }

  predicate FreeSlot(t: seq<DirectoryEntry>, i: int) {
    0 <= i < |t| && !t[i].inUse
  }

  class Directory {
    const tableSize: nat
    const table: array<DirectoryEntry>

    ghost predicate Valid() {
      table.Length == tableSize
    }

    constructor (size: nat)
      ensures Valid() && fresh(table) && tableSize == size
      ensures forall i :: 0 <= i < size ==> !table[i].inUse
    {
      tableSize := size;
      table := new DirectoryEntry[size];
      new;
      for i := 0 to tableSize
        invariant forall k :: 0 <= k < i ==> !table[k].inUse
      {
        table[i] := table[i].(inUse := false);
      }
    }

    method FetchFrom(file: OpenFile)
      requires Valid() && file.Valid()
      modifies table
      ensures table[..] == DecodeTable(Overlaid(EncodeTable(old(table[..])), Content(file.disk.image, file.hdr.View())))
      ensures file.hdr.View().numBytes == ENTRY_SIZE * tableSize ==>
                table[..] == DecodeTable(Content(file.disk.image, file.hdr.View()))
    {
      hide EncodeTable, DecodeTable, Content;
      var was := EncodeTable(table[..]);
      var raw := new Byte[tableSize * ENTRY_SIZE](i requires 0 <= i < |was| => was[i]);
      var n := file.ReadAt(raw, 0, tableSize * ENTRY_SIZE, 0);
      assert raw[..] == Overlaid(was, Content(file.disk.image, file.hdr.View()));
      var t := DecodeTable(raw[..]);
      forall i | 0 <= i < tableSize {
        table[i] := t[i];
      }
    }

    method WriteBack(file: OpenFile)
      requires Valid() && file.Valid()
      modifies file.disk
      ensures Written(old(file.disk.image), file.disk.image, file.hdr.View(), 0,
                      Cut(EncodeTable(table[..]), file.hdr.View().numBytes))
    {
      hide EncodeTable, Content, Written;
      var raw := EncodeTable(table[..]);
      var n := file.WriteAt(raw, tableSize * ENTRY_SIZE, 0);
      assert raw[..n] == Cut(raw, file.hdr.View().numBytes);
    }

    method FindIndex(name: CString) returns (i: int)
      requires Valid()
      ensures i == -1 ==> !InTable(table[..], Key(name))
      ensures i != -1 ==> Holds(table[..], i, Key(name)) && forall k :: Holds(table[..], k, Key(name)) ==> i <= k
    {
      hide SameName, StoredKey;
      for k := 0 to tableSize
        invariant forall j :: 0 <= j < k ==> !Holds(table[..], j, Key(name))
      {
        SameNameIsEqualKey(table[k].name, name);
        assert Key(name)[0..] == Key(name);
        if table[k].inUse && SameName(table[k].name, name) {
          return k;
        }
      }
      return -1;
    }

    method Find(name: CString) returns (sector: Int32)
      requires Valid()
      ensures !InTable(table[..], Key(name)) ==> sector == -1
      ensures InTable(table[..], Key(name)) ==>
                exists i :: Holds(table[..], i, Key(name)) && sector == table[i].sector
                            && forall k :: Holds(table[..], k, Key(name)) ==> i <= k
    {
      var i := FindIndex(name);
      if i != -1 {
        return table[i].sector;
      }
      return -1;
    }

    /** Fails when the name is present or no slot is free; otherwise fills the first free slot. */
    method Add(name: CString, newSector: Int32) returns (ok: bool)
      requires Valid()
      modifies table
      ensures ok <==> !InTable(old(table[..]), Key(name)) && exists i :: FreeSlot(old(table[..]), i)
      ensures !ok ==> table[..] == old(table[..])
      ensures ok ==> exists f :: FreeSlot(old(table[..]), f)
                                 && (forall i :: FreeSlot(old(table[..]), i) ==> f <= i)
                                 && Filled(old(table[..]), table[..], f, Key(name), newSector)
    {
      var present := FindIndex(name);
      if present != -1 {
        return false;
      }
      for i := 0 to tableSize
        invariant table[..] == old(table[..])
        invariant forall k :: 0 <= k < i ==> !FreeSlot(old(table[..]), k)
      {
        if !table[i].inUse {
          CopiedKey(table[i].name, name);
          assert Key(name)[0..] == Key(name);
          table[i] := table[i].(inUse := true, name := CopyName(table[i].name, name), sector := newSector);
          assert table[..] == old(table[..])[i := table[i]];
          assert FreeSlot(old(table[..]), i);
          return true;
        }
      }
      return false;
    }

    method Remove(name: CString) returns (ok: bool)
      requires Valid()
      modifies table
      ensures ok <==> InTable(old(table[..]), Key(name))
      ensures !ok ==> table[..] == old(table[..])
      ensures ok ==> exists i :: Holds(old(table[..]), i, Key(name))
                                 && (forall k :: Holds(old(table[..]), k, Key(name)) ==> i <= k)
                                 && table[..] == old(table[..])[i := old(table[i]).(inUse := false)]
    {
      var i := FindIndex(name);
      if i == -1 {
        return false;
      }
      table[i] := table[i].(inUse := false);
      assert table[..] == old(table[..])[i := old(table[i]).(inUse := false)];
      return true;
    }
  }

  /** `t'` is `t` with slot `f` put in use for the file `key` whose header is in `sector`. */
  predicate Filled(t: seq<DirectoryEntry>, t': seq<DirectoryEntry>, f: int, key: CString, sector: Int32) {
    && |t'| == |t|
    && Holds(t', f, key)
    && t'[f].sector == sector
    && t' == t[f := t'[f]]
  }
}
