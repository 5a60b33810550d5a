/** Copying between a kernel buffer and a task's memory, record by record. */
module UserCopy {
  import opened Common
  import opened Segments

  predicate Covers(rec: Segment, addr: nat) {
    rec.vPage * PAGE_SIZE <= addr < (rec.vPage + rec.pages) * PAGE_SIZE
  }

  /** Where the kernel finds the byte that the user has at `addr`. */
  function Location(rec: Segment, addr: nat): nat
    requires Covers(rec, addr)
  {
    (rec.frame + OFFSET) * PAGE_SIZE + (addr - rec.vPage * PAGE_SIZE)
  }

  /** Page `j` of a record is the frame `j` after the record's first; the place in the page stays. */
  lemma LocationMeans(rec: Segment, j: nat, place: nat)
    requires j < rec.pages && place < 4096
    ensures Covers(rec, (rec.vPage + j) * 4096 + place)
    ensures Location(rec, (rec.vPage + j) * 4096 + place) == (rec.frame + j + 0xF_FFFF_FC00_0000) * 4096 + place
  {
  }

  /** Address translation: the record that covers `addr` says. */
  ghost predicate At(recs: seq<Segment>, addr: nat, at: nat) {
    exists i :: 0 <= i < |recs| && Covers(recs[i], addr) && Location(recs[i], addr) == at
  }

  ghost predicate Mapped(recs: seq<Segment>, addr: nat) {
    exists i :: 0 <= i < |recs| && Covers(recs[i], addr)
  }

  /** No user address is covered twice. */
  predicate Disjoint(recs: seq<Segment>) {
    forall i, j :: 0 <= i < |recs| && 0 <= j < |recs| && i != j ==>
      recs[i].vPage + recs[i].pages <= recs[j].vPage || recs[j].vPage + recs[j].pages <= recs[i].vPage
        || recs[i].pages == 0 || recs[j].pages == 0
  }

  /** No frame backs two records. */
  predicate DisjointFrames(recs: seq<Segment>) {
    forall i, j :: 0 <= i < |recs| && 0 <= j < |recs| && i != j ==>
      recs[i].frame + recs[i].pages <= recs[j].frame || recs[j].frame + recs[j].pages <= recs[i].frame
        || recs[i].pages == 0 || recs[j].pages == 0
  }

  /** The records of a task, from the segments it holds. */
  ghost function Records(ids: seq<nat>, st: Store): seq<Segment>
    requires forall id :: id in ids ==> id in st.arcs
  {
    seq(|ids|, i requires 0 <= i < |ids| => st.arcs[ids[i]])
  }

  /** No frame backs two records of a task, whatever tasks have been made, forked and killed. */
  lemma OwnedFrames(tasks: map<nat, seq<nat>>, st: Store, p: nat)
    requires Owned(tasks, [], st) && p in tasks
    ensures TaskOk(tasks, st, p) && DisjointFrames(Records(tasks[p], st))
  {
    assert TaskOk(tasks, st, p);
    var ids := tasks[p];
    var recs := Records(ids, st);
    forall i, j | 0 <= i < |recs| && 0 <= j < |recs| && i != j
      ensures recs[i].frame + recs[i].pages <= recs[j].frame || recs[j].frame + recs[j].pages <= recs[i].frame
        || recs[i].pages == 0 || recs[j].pages == 0
    {
      assert ids[i] != ids[j];
      ArcFrames(tasks, st, ids[i], ids[j]);
    }
  }

  lemma ArcFrames(tasks: map<nat, seq<nat>>, st: Store, x: nat, y: nat)
    requires Owned(tasks, [], st) && x in st.arcs && y in st.arcs && x != y
    ensures var a, b := st.arcs[x], st.arcs[y]; a.frame + a.pages <= b.frame || b.frame + b.pages <= a.frame
  {
    assert ArcOk(tasks, [], st, x) && ArcOk(tasks, [], st, y);
    assert ArcsApart(st, x, y) && FramesApart(st, st.arcs[x].frame, st.arcs[y].frame);
  }

  lemma AtUnique(recs: seq<Segment>, addr: nat, x: nat, y: nat)
    requires Disjoint(recs) && At(recs, addr, x) && At(recs, addr, y)
    ensures x == y
  {
    var i :| 0 <= i < |recs| && Covers(recs[i], addr) && Location(recs[i], addr) == x;
    var j :| 0 <= j < |recs| && Covers(recs[j], addr) && Location(recs[j], addr) == y;
  }

  lemma AtApart(recs: seq<Segment>, a: nat, b: nat, x: nat, y: nat)
    requires DisjointFrames(recs) && At(recs, a, x) && At(recs, b, y) && a != b
    ensures x != y
  {
    var i :| 0 <= i < |recs| && Covers(recs[i], a) && Location(recs[i], a) == x;
    var j :| 0 <= j < |recs| && Covers(recs[j], b) && Location(recs[j], b) == y;
  }

  /** All bytes behind the records are there. */
  ghost predicate Backing(recs: seq<Segment>, mem: map<nat, bv8>) {
    forall addr, x {:trigger At(recs, addr, x)} :: At(recs, addr, x) ==> x in mem
  }

  /** `n` is the length of the longest covered prefix of the `len` bytes at `addr`. */
  ghost predicate Longest(recs: seq<Segment>, addr: nat, len: nat, n: nat) {
    n <= len && AllMapped(recs, addr, n) && (n < len ==> !Mapped(recs, addr + n))
  }

  ghost predicate AllMapped(recs: seq<Segment>, addr: nat, n: nat) {
    forall b {:trigger Mapped(recs, b)} :: addr <= b < addr + n ==> Mapped(recs, b)
  }

  lemma LongestUnique(recs: seq<Segment>, addr: nat, len: nat, n: nat, m: nat)
    requires Longest(recs, addr, len, n) && Longest(recs, addr, len, m)
    ensures n == m
  {
  }

  /** The bytes `data` are what the user has at `addr`. */
  ghost predicate Shows(recs: seq<Segment>, mem: map<nat, bv8>, addr: nat, data: seq<bv8>) {
    forall b, x {:trigger At(recs, b, x)} ::
      addr <= b < addr + |data| && At(recs, b, x) ==> x in mem && mem[x] == data[b - addr]
  }

  /** Nothing but the user's bytes from `addr` to `addr + n` differs. */
  ghost predicate OnlyThere(recs: seq<Segment>, was: map<nat, bv8>, now: map<nat, bv8>, addr: nat, n: nat) {
    && now.Keys == was.Keys
    && forall x :: x in was && now[x] != was[x] ==> Within(recs, addr, n, x)
  }

  ghost predicate Within(recs: seq<Segment>, addr: nat, n: nat, x: nat) {
    exists b :: addr <= b < addr + n && At(recs, b, x)
  }

  /** Reading back what was written returns it. */
  lemma ReadBack(recs: seq<Segment>, mem: map<nat, bv8>, addr: nat, data: seq<bv8>, n: nat, out: seq<bv8>, m: nat)
    requires Longest(recs, addr, |data|, n) && Shows(recs, mem, addr, data[..n])
    requires Longest(recs, addr, |out|, m) && |out| == |data| && Shows(recs, mem, addr, out[..m])
    ensures m == n && out[..m] == data[..n]
  {
    LongestUnique(recs, addr, |data|, n, m);
    forall i | 0 <= i < n ensures out[..m][i] == data[..n][i] {
      assert Mapped(recs, addr + i);
      var k :| 0 <= k < |recs| && Covers(recs[k], addr + i);
      assert At(recs, addr + i, Location(recs[k], addr + i));
    }
  }

  /** Within one record, translation adds. */
  lemma AtInRecord(recs: seq<Segment>, i: nat, b: nat)
    requires i < |recs| && Covers(recs[i], b)
    ensures At(recs, b, Location(recs[i], b)) && Mapped(recs, b)
    ensures Disjoint(recs) ==> forall x :: At(recs, b, x) ==> x == Location(recs[i], b)
  {
    if Disjoint(recs) {
      forall x | At(recs, b, x) ensures x == Location(recs[i], b) { AtUnique(recs, b, x, Location(recs[i], b)); }
    }
  }

  lemma ShowsMore(recs: seq<Segment>, mem: map<nat, bv8>, addr: nat, data: seq<bv8>, i: nat, byte: bv8)
    requires Disjoint(recs) && Shows(recs, mem, addr, data) && i < |recs| && Covers(recs[i], addr + |data|)
    requires Location(recs[i], addr + |data|) in mem && mem[Location(recs[i], addr + |data|)] == byte
    ensures Shows(recs, mem, addr, data + [byte])
  {
    AtInRecord(recs, i, addr + |data|);
  }

  lemma MappedMore(recs: seq<Segment>, addr: nat, n: nat, i: nat)
    requires AllMapped(recs, addr, n) && i < |recs| && Covers(recs[i], addr + n)
    ensures AllMapped(recs, addr, n + 1)
  {
    AtInRecord(recs, i, addr + n);
  }

  /** Writing the next byte leaves the bytes before it in place. */
  lemma WriteMore(recs: seq<Segment>, mem: map<nat, bv8>, addr: nat, data: seq<bv8>, i: nat, byte: bv8)
    requires Disjoint(recs) && DisjointFrames(recs) && Shows(recs, mem, addr, data)
    requires i < |recs| && Covers(recs[i], addr + |data|)
    ensures Shows(recs, mem[Location(recs[i], addr + |data|) := byte], addr, data + [byte])
  {
    var at := Location(recs[i], addr + |data|);
    var mem' := mem[at := byte];
    AtInRecord(recs, i, addr + |data|);
    forall b, x | addr <= b < addr + |data| && At(recs, b, x) ensures x in mem' && mem'[x] == data[b - addr] {
      AtApart(recs, b, addr + |data|, x, at);
    }
  }

  lemma OnlyThereMore(recs: seq<Segment>, was: map<nat, bv8>, now: map<nat, bv8>, addr: nat, n: nat, i: nat, byte: bv8)
    requires OnlyThere(recs, was, now, addr, n) && i < |recs| && Covers(recs[i], addr + n)
    requires Location(recs[i], addr + n) in now
    ensures OnlyThere(recs, was, now[Location(recs[i], addr + n) := byte], addr, n + 1)
  {
    var at := Location(recs[i], addr + n);
    var now' := now[at := byte];
    AtInRecord(recs, i, addr + n);
    forall x | x in was && now'[x] != was[x] ensures Within(recs, addr, n + 1, x) {
      if x != at {
        assert Within(recs, addr, n, x);
        var b :| addr <= b < addr + n && At(recs, b, x);
        assert addr <= b < addr + n + 1;
      }
    }
  }

  class TaskView {
    const recs: seq<Segment>
    var mem: map<nat, bv8>

    constructor (recs: seq<Segment>, mem: map<nat, bv8>)
      ensures this.recs == recs && this.mem == mem
    {
      this.recs := recs;
      this.mem := mem;
    }

    /** The first record that covers the page of `addr`. */
    method Find(addr: nat) returns (found: Option<nat>)
      ensures found.None? ==> !Mapped(recs, addr)
      ensures found.Some? ==> found.value < |recs| && Covers(recs[found.value], addr)
    {
      for i := 0 to |recs|
        invariant forall j :: 0 <= j < i ==> !Covers(recs[j], addr)
      {
        if recs[i].vPage <= addr / PAGE_SIZE < recs[i].vPage + recs[i].pages {
          return Some(i);
        }
      }
      found := None;
    }

    /** Copy from record `i` until the buffer is full or the record ends. */
    method ReadRecord(i: nat, addr: nat, buf: array<bv8>, done: nat) returns (n: nat)
      requires Disjoint(recs) && Backing(recs, mem) && done < buf.Length
      requires i < |recs| && Covers(recs[i], addr + done)
      requires AllMapped(recs, addr, done) && Shows(recs, mem, addr, buf[..done])
      modifies buf
      ensures done < n <= buf.Length && (n < buf.Length ==> addr + n == (recs[i].vPage + recs[i].pages) * PAGE_SIZE)
      ensures AllMapped(recs, addr, n) && Shows(recs, mem, addr, buf[..n]) && buf[n..] == old(buf[n..])
    {
      n := done;
      var offset := addr + done - recs[i].vPage * PAGE_SIZE;
      while n < buf.Length && offset < recs[i].pages * PAGE_SIZE
        invariant done <= n <= buf.Length && offset == addr + n - recs[i].vPage * PAGE_SIZE
        invariant n == done ==> Covers(recs[i], addr + n)
        invariant 0 <= offset <= recs[i].pages * PAGE_SIZE
        invariant AllMapped(recs, addr, n) && Shows(recs, mem, addr, buf[..n]) && buf[n..] == old(buf[n..])
      {
        AtInRecord(recs, i, addr + n);
        ShowsMore(recs, mem, addr, buf[..n], i, mem[(recs[i].frame + OFFSET) * PAGE_SIZE + offset]);
        MappedMore(recs, addr, n, i);
        ghost var front, back := buf[..n], buf[n..];
        buf[n] := mem[(recs[i].frame + OFFSET) * PAGE_SIZE + offset];
        assert buf[..n + 1] == front + [buf[n]];
        assert buf[n + 1..] == back[1..];
        n := n + 1;
        offset := offset + 1;
      }
    }

    method CopyFromUser(addr: nat, buf: array<bv8>) returns (n: nat)
      requires Disjoint(recs) && Backing(recs, mem)
      modifies buf
      ensures Longest(recs, addr, buf.Length, n) && Shows(recs, mem, addr, buf[..n]) && buf[n..] == old(buf[n..])
    {
      n := 0;
      var user := addr;
      while n < buf.Length
        invariant n <= buf.Length && user == addr + n
        invariant AllMapped(recs, addr, n) && Shows(recs, mem, addr, buf[..n]) && buf[n..] == old(buf[n..])
      {
        var found := Find(user);
        if found.None? {
          break;
        }
        n := ReadRecord(found.value, addr, buf, n);
        if n == buf.Length {
          break;
        }
        user := (recs[found.value].vPage + recs[found.value].pages) * PAGE_SIZE;
      }
    }

    method WriteByte(i: nat, addr: nat, data: seq<bv8>, n: nat, offset: nat, ghost was: map<nat, bv8>)
      requires Disjoint(recs) && DisjointFrames(recs) && Backing(recs, mem) && n < |data|
      requires i < |recs| && Covers(recs[i], addr + n) && offset == addr + n - recs[i].vPage * PAGE_SIZE
      requires OnlyThere(recs, was, mem, addr, n) && AllMapped(recs, addr, n) && Shows(recs, mem, addr, data[..n])
      modifies `mem
      ensures Backing(recs, mem) && OnlyThere(recs, was, mem, addr, n + 1)
      ensures AllMapped(recs, addr, n + 1) && Shows(recs, mem, addr, data[..n + 1])
    {
      AtInRecord(recs, i, addr + n);
      WriteMore(recs, mem, addr, data[..n], i, data[n]);
      OnlyThereMore(recs, was, mem, addr, n, i, data[n]);
      MappedMore(recs, addr, n, i);
      assert data[..n + 1] == data[..n] + [data[n]];
      mem := mem[(recs[i].frame + OFFSET) * PAGE_SIZE + offset := data[n]];
    }

    /** Copy to record `i` until the data ends or the record does. */
    method WriteRecord(i: nat, addr: nat, data: seq<bv8>, done: nat, ghost was: map<nat, bv8>) returns (n: nat)
      requires Disjoint(recs) && DisjointFrames(recs) && Backing(recs, mem) && done < |data|
      requires i < |recs| && Covers(recs[i], addr + done) && OnlyThere(recs, was, mem, addr, done)
      requires AllMapped(recs, addr, done) && Shows(recs, mem, addr, data[..done])
      modifies `mem
      ensures done < n <= |data| && (n < |data| ==> addr + n == (recs[i].vPage + recs[i].pages) * PAGE_SIZE)
      ensures Backing(recs, mem) && OnlyThere(recs, was, mem, addr, n)
      ensures AllMapped(recs, addr, n) && Shows(recs, mem, addr, data[..n])
    {
      n := done;
      var offset := addr + done - recs[i].vPage * PAGE_SIZE;
      while n < |data| && offset < recs[i].pages * PAGE_SIZE
        invariant done <= n <= |data| && offset == addr + n - recs[i].vPage * PAGE_SIZE
        invariant n == done ==> Covers(recs[i], addr + n)
        invariant 0 <= offset <= recs[i].pages * PAGE_SIZE
        invariant Backing(recs, mem) && OnlyThere(recs, was, mem, addr, n)
        invariant AllMapped(recs, addr, n) && Shows(recs, mem, addr, data[..n])
      {
        WriteByte(i, addr, data, n, offset, was);
        n := n + 1;
        offset := offset + 1;
      }
    }

    method CopyToUser(addr: nat, data: seq<bv8>) returns (n: nat)
      requires Disjoint(recs) && DisjointFrames(recs) && Backing(recs, mem)
      modifies `mem
      ensures Longest(recs, addr, |data|, n) && Shows(recs, mem, addr, data[..n])
      ensures Backing(recs, mem) && OnlyThere(recs, old(mem), mem, addr, n)
    {
      n := 0;
      var user := addr;
      while n < |data|
        invariant n <= |data| && user == addr + n
        invariant Backing(recs, mem) && OnlyThere(recs, old(mem), mem, addr, n)
        invariant AllMapped(recs, addr, n) && Shows(recs, mem, addr, data[..n])
      {
        var found := Find(user);
        if found.None? {
          break;
        }
        n := WriteRecord(found.value, addr, data, n, old(mem));
        if n == |data| {
          break;
        }
        user := (recs[found.value].vPage + recs[found.value].pages) * PAGE_SIZE;
      }
    }

    /** A write followed by a read of the same range. */
    method WriteThenRead(addr: nat, data: seq<bv8>, buf: array<bv8>) returns (n: nat)
      requires Disjoint(recs) && DisjointFrames(recs) && Backing(recs, mem) && buf.Length == |data|
      modifies `mem, buf
      ensures Longest(recs, addr, |data|, n) && buf[..n] == data[..n]
    {
      var m := CopyToUser(addr, data);
      n := CopyFromUser(addr, buf);
      ReadBack(recs, mem, addr, data, m, buf[..], n);
      assert buf[..][..n] == buf[..n];
    }
  }
}
