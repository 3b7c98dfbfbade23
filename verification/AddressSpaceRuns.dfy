/** What a process can rely on in every run: it reads back what it has stored, whatever the other processes do; and
    what a pager can rely on: use and dirty bits tell which pages were accessed and changed since the program was
    loaded. */
module AddressSpaceRuns {
  import opened Bytes
  import opened Machines
  import opened AddressSpaces

  /** The operation reads or writes page `i` of process `id`. */
  predicate Accesses(op: Op, reply: Reply, id: nat, i: int) {
    Changes(op, reply, id, i) || (op.Read? && op.id == id && op.addr / 128 == i && reply.Value? && reply.result.Ok?)
  }

  predicate Changes(op: Op, reply: Reply, id: nat, i: int) {
    op.Write? && op.id == id && op.addr / 128 == i && reply == Flag(true)
  }

  /** Over one step, the use bit of a page records accesses and the dirty bit records stores. */
  lemma StepBits(s: System, op: Op, reply: Reply, s': System, id: nat, i: int)
    requires Inv(s) && AddressSpaces.Legal(s.spaces.Keys, op) && Next(s, op, reply, s')
    requires LivePage(s, id, i) && op != Destroy(id)
    ensures LivePage(s', id, i)
    ensures s'.spaces[id][i].use == (s.spaces[id][i].use || Accesses(op, reply, id, i))
    ensures s'.spaces[id][i].dirty == (s.spaces[id][i].dirty || Changes(op, reply, id, i))
  {
    hide Inv, Loaded, Image, ParseHeader, EncodeWord, IsValueOf;
    if op.Write? || op.Read? {
      hide Phys, Lookup, Touch;
      TablesOk(s, op.id);
      PhysOfTable(s.spaces[op.id], op.addr, op.Write?);
      TouchMarks(s.spaces[op.id], op.addr, op.Write?);
    }
  }

  lemma TouchMarks(table: seq<Entry>, addr: Word, writing: bool)
    requires TableOk(table)
    ensures var table' := Touch(PageTable(table), addr, writing).entries;
            && |table'| == |table|
            && forall i :: 0 <= i < |table| ==>
                 && table'[i].use == (table[i].use || addr / 128 == i)
                 && table'[i].dirty == (table[i].dirty || (writing && addr / 128 == i))
  {
  }

  /** Process `id` is not destroyed by the operations from `c` to `n`. */
  ghost predicate Stays(ops: seq<Op>, id: nat, c: nat, n: nat)
    requires c <= n <= |ops|
  {
    forall k :: c <= k < n ==> ops[k] != Destroy(id)
  }

  ghost predicate Accessed(ops: seq<Op>, replies: seq<Reply>, id: nat, i: int, c: nat, n: nat)
    requires c <= n <= |ops| == |replies|
  {
    exists k :: c <= k < n && Accesses(ops[k], replies[k], id, i)
  }

  ghost predicate Changed(ops: seq<Op>, replies: seq<Reply>, id: nat, i: int, c: nat, n: nat)
    requires c <= n <= |ops| == |replies|
  {
    exists k :: c <= k < n && Changes(ops[k], replies[k], id, i)
  }

  lemma {:induction false} RunBits(ss: seq<System>, ops: seq<Op>, replies: seq<Reply>, id: nat, i: int, c: nat, n: nat)
    requires Run(ss, ops, replies) && c <= n <= |ops| && LivePage(ss[c], id, i) && Stays(ops, id, c, n)
    ensures LivePage(ss[n], id, i)
    ensures ss[n].spaces[id][i].use == (ss[c].spaces[id][i].use || Accessed(ops, replies, id, i, c, n))
    ensures ss[n].spaces[id][i].dirty == (ss[c].spaces[id][i].dirty || Changed(ops, replies, id, i, c, n))
    decreases n
  {
    hide Inv, Next, AddressSpaces.Legal, Accesses, Changes;
    if c < n {
      RunBits(ss, ops, replies, id, i, c, n - 1);
      RunKeepsInv(ss, ops, replies, n - 1);
      StepBits(ss[n - 1], ops[n - 1], replies[n - 1], ss[n], id, i);
    }
  }

  predicate StoresTo(op: Op, reply: Reply, id: nat, v: int) {
    op.Write? && op.id == id && op.addr <= v < op.addr + op.size && reply == Flag(true)
  }

  /** In the specification, a byte of a process changes only by a store of that process to it. */
  lemma StepKeepsByte(a: map<nat, seq<Byte>>, op: Op, reply: Reply, a': map<nat, seq<Byte>>, id: nat, v: int)
    requires AddressSpaces.Legal(a.Keys, op) && SpecNext(a, op, reply, a') && op != Destroy(id)
    requires id in a && 0 <= v < |a[id]|
    requires !StoresTo(op, reply, id, v)
    ensures id in a' && |a'[id]| == |a[id]| && a'[id][v] == a[id][v]
  {
    hide Image, ParseHeader, EncodeWord, IsValueOf, Pages;
  }

  /** No store of process `id` to byte `v` from `c` to `n`. */
  ghost predicate NotStored(ops: seq<Op>, replies: seq<Reply>, id: nat, v: int, c: nat, n: nat)
    requires c <= n <= |ops| == |replies|
  {
    forall k :: c <= k < n ==> !StoresTo(ops[k], replies[k], id, v)
  }

  lemma {:induction false} RunKeepsByte(ss: seq<System>, ops: seq<Op>, replies: seq<Reply>, id: nat, v: int,
                                        c: nat, n: nat)
    requires Run(ss, ops, replies) && c <= n <= |ops| && Stays(ops, id, c, n) && NotStored(ops, replies, id, v, c, n)
    requires Inv(ss[c]) && id in Abs(ss[c]) && 0 <= v < |Abs(ss[c])[id]|
    ensures Inv(ss[n]) && id in Abs(ss[n]) && |Abs(ss[n])[id]| == |Abs(ss[c])[id]|
    ensures Abs(ss[n])[id][v] == Abs(ss[c])[id][v]
    decreases n
  {
    hide Inv, Next, AddressSpaces.Legal, SpecNext, Abs;
    if c < n {
      RunKeepsByte(ss, ops, replies, id, v, c, n - 1);
      StepRefines(ss[n - 1], ops[n - 1], replies[n - 1], ss[n]);
      StepKeepsByte(Abs(ss[n - 1]), ops[n - 1], replies[n - 1], Abs(ss[n]), id, v);
    }
  }

  /** A process reads back what it stored, cut to the size, whatever other processes do in between. */
  lemma ReadsBack(ss: seq<System>, ops: seq<Op>, replies: seq<Reply>, i: nat, j: nat)
    requires Run(ss, ops, replies) && i < j < |ops|
    requires ops[i].Write? && replies[i] == Flag(true) && ops[j] == Read(ops[i].id, ops[i].addr, ops[i].size)
    requires Stays(ops, ops[i].id, i, j)
    requires forall k :: i < k < j && ops[k].Write? && ops[k].id == ops[i].id && replies[k] == Flag(true) ==>
               ops[k].addr + ops[k].size <= ops[i].addr || ops[i].addr + ops[i].size <= ops[k].addr
    ensures replies[j].Value? && replies[j].result.Ok?
    ensures IsNarrowed(ops[i].value, ops[i].size, replies[j].result.value)
  {
    hide Inv, Next, Abs, EncodeWord, IsValueOf, IsNarrowed, Image, ParseHeader, Pages;
    var id, addr, size := ops[i].id, ops[i].addr, ops[i].size;
    assert AddressSpaces.Legal(ss[i].spaces.Keys, ops[i]) && AddressSpaces.Legal(ss[j].spaces.Keys, ops[j]);
    RunKeepsInv(ss, ops, replies, i);
    StepRefines(ss[i], ops[i], replies[i], ss[i + 1]);
    assert id in Abs(ss[i]) && id in Abs(ss[i + 1]);
    var was, data := Abs(ss[i + 1])[id], EncodeWord(ops[i].value)[..size];
    assert was[addr..addr + size] == data;
    RunKeepsInv(ss, ops, replies, j);
    RunKeepsLength(ss, ops, replies, id, i + 1, j);
    forall v | addr <= v < addr + size
      ensures Abs(ss[j])[id][v] == was[v]
    {
      RunKeepsByte(ss, ops, replies, id, v, i + 1, j);
    }
    assert Abs(ss[j])[id][addr..addr + size] == data;
    StepRefines(ss[j], ops[j], replies[j], ss[j + 1]);
    StoredValue(ops[i].value, size, replies[j].result.value);
  }

  /** Since a program was loaded, a page is marked used exactly when it was accessed and dirty exactly when it was
      stored to; a clean page is as it was loaded. */
  lemma BitsSinceLoad(ss: seq<System>, ops: seq<Op>, replies: seq<Reply>, c: nat, n: nat, i: int)
    requires Run(ss, ops, replies) && c < n <= |ops| && ops[c].Load? && replies[c] == Flag(true)
    requires Stays(ops, ops[c].id, c, n) && AddressSpaces.Legal(ss[c].spaces.Keys, ops[c])
    requires 0 <= i < NumPages(ParseHeader(ops[c].file[..52]))
    ensures var id, image := ops[c].id, Image(ParseHeader(ops[c].file[..52]), ops[c].file);
            && LivePage(ss[n], id, i)
            && ss[n].spaces[id][i].use == Accessed(ops, replies, id, i, c + 1, n)
            && ss[n].spaces[id][i].dirty == Changed(ops, replies, id, i, c + 1, n)
            && Inv(ss[n]) && |Abs(ss[n])[id]| == |image|
            && (!ss[n].spaces[id][i].dirty ==>
                  Abs(ss[n])[id][128 * i..128 * i + 128] == image[128 * i..128 * i + 128])
  {
    hide Inv, Abs, Loaded, Image, ParseHeader, Accesses, Changes, EncodeWord, IsValueOf, Changed, Accessed, NotStored;
    var id, image := ops[c].id, Image(ParseHeader(ops[c].file[..52]), ops[c].file);
    RunKeepsInv(ss, ops, replies, c);
    RunKeepsInv(ss, ops, replies, c + 1);
    LoadRefines(ss[c], ss[c + 1], id, image);
    FreshPages(ss[c], ss[c + 1], id, image);
    assert LivePage(ss[c + 1], id, i);
    RunBits(ss, ops, replies, id, i, c + 1, n);
    RunKeepsLength(ss, ops, replies, id, c + 1, n);
    if !ss[n].spaces[id][i].dirty {
      forall v | 128 * i <= v < 128 * i + 128
        ensures Abs(ss[n])[id][v] == image[v]
      {
        CleanNotStored(ss, ops, replies, id, i, v, c + 1, n);
        RunKeepsByte(ss, ops, replies, id, v, c + 1, n);
      }
    }
  }

  lemma FreshPages(s: System, s': System, id: nat, image: seq<Byte>)
    requires LoadStep(s, s', id, image)
    ensures Untouched(s'.spaces[id]) && |image| == 128 * |s'.spaces[id]|
  {
  }

  /** A store into a page of the process is aligned, so it lies in that page only. */
  lemma CleanNotStored(ss: seq<System>, ops: seq<Op>, replies: seq<Reply>, id: nat, i: int, v: int, c: nat, n: nat)
    requires Run(ss, ops, replies) && c <= n <= |ops| && !Changed(ops, replies, id, i, c, n)
    requires 128 * i <= v < 128 * i + 128
    ensures NotStored(ops, replies, id, v, c, n)
  {
    hide Inv, Next, Abs, EncodeWord, Image, ParseHeader, Pages, IsValueOf;
    forall k | c <= k < n
      ensures !StoresTo(ops[k], replies[k], id, v)
    {
      assert !Changes(ops[k], replies[k], id, i);
      if StoresTo(ops[k], replies[k], id, v) {
        RunKeepsInv(ss, ops, replies, k);
        StepRefines(ss[k], ops[k], replies[k], ss[k + 1]);
        AlignedRange(ops[k].addr, ops[k].size, 0);
      }
    }
  }

  lemma StepKeepsLength(a: map<nat, seq<Byte>>, op: Op, reply: Reply, a': map<nat, seq<Byte>>, id: nat)
    requires AddressSpaces.Legal(a.Keys, op) && SpecNext(a, op, reply, a') && op != Destroy(id) && id in a
    ensures id in a' && |a'[id]| == |a[id]|
  {
    hide Image, ParseHeader, EncodeWord, IsValueOf, Pages;
  }

  lemma {:induction false} RunKeepsLength(ss: seq<System>, ops: seq<Op>, replies: seq<Reply>, id: nat, c: nat, n: nat)
    requires Run(ss, ops, replies) && c <= n <= |ops| && Stays(ops, id, c, n) && Inv(ss[c]) && id in Abs(ss[c])
    ensures Inv(ss[n]) && id in Abs(ss[n]) && |Abs(ss[n])[id]| == |Abs(ss[c])[id]|
    decreases n
  {
    hide Inv, Next, AddressSpaces.Legal, SpecNext, Abs;
    if c < n {
      RunKeepsLength(ss, ops, replies, id, c, n - 1);
      StepRefines(ss[n - 1], ops[n - 1], replies[n - 1], ss[n]);
      StepKeepsLength(Abs(ss[n - 1]), ops[n - 1], replies[n - 1], Abs(ss[n]), id);
    }
  }
}
