/**
 * Listing the listening ports (`list_ports`): the operating system's socket
 * table, as `listeners::get_all` reports it, is filtered to TCP bindings with
 * a port on an unspecified address, reduced to one row per (port, pid) and
 * sorted by (port, pid).
 */
module Listing {
  import opened Wrappers
  import opened Text
  import opened Sorting

  type U128 = x: int | 0 <= x < 0x1_0000_0000_0000_0000_0000_0000_0000_0000

  datatype Protocol = TCP | UDP

  /** An IP address, by its bits. */
  datatype IpAddr = V4(bits: U32) | V6(bits128: U128)

  /** `Ipv4Addr::is_unspecified` and `Ipv6Addr::is_unspecified`: every bit is zero (0.0.0.0 and ::). */
  predicate IsUnspecified(ip: IpAddr) {
    match ip
    case V4(b) => b == 0
    case V6(b) => b == 0
  }

  /** One socket of the snapshot: its protocol, the address and port it is bound to, and its process. */
  datatype Listener = Listener(protocol: Protocol, ip: IpAddr, port: U16, pid: U32, name: string)

  /** `PortEntry`: a row of the port table. */
  datatype PortEntry = PortEntry(port: U16, processName: string, pid: U32, status: string)

  const Running: string := "Running"

  /** The bindings that are listed: TCP, a non-zero port, an unspecified address. */
  predicate Listening(l: Listener) {
    l.protocol == TCP && l.port != 0 && IsUnspecified(l.ip)
  }

  /** The row of a listed binding. */
  function EntryOf(l: Listener): PortEntry {
    PortEntry(l.port, l.name, l.pid, Running)
  }

  /** The pair (port, pid) as one number, ordered as Rust orders the tuple. */
  function EntryKey(e: PortEntry): int {
    e.port * 0x1_0000_0000 + e.pid
  }

  /** The key orders rows by port, then by pid, and tells rows with different (port, pid) apart. */
  lemma EntryKeyOrder(e: PortEntry, f: PortEntry)
    ensures EntryKey(e) < EntryKey(f) <==> e.port < f.port || (e.port == f.port && e.pid < f.pid)
    ensures EntryKey(e) == EntryKey(f) <==> e.port == f.port && e.pid == f.pid
  {
  }

  /** The (port, pid) pairs of some rows. */
  function KeysOf(es: seq<PortEntry>): set<(U16, U32)> {
    set e | e in es :: (e.port, e.pid)
  }

  /**
   * What the filtering loop collects, in snapshot order: each listed binding
   * whose (port, pid) has not been collected before.
   */
  function Kept(snap: seq<Listener>): seq<PortEntry> {
    if snap == [] then []
    else
      var before := Kept(snap[..|snap| - 1]);
      var l := snap[|snap| - 1];
      if Listening(l) && (l.port, l.pid) !in KeysOf(before) then before + [EntryOf(l)] else before
  }

  /** Record `i` is listed and no earlier listed record has its (port, pid). */
  predicate FirstListening(snap: seq<Listener>, i: int) {
    && 0 <= i < |snap|
    && Listening(snap[i])
    && forall j :: 0 <= j < i ==> !(Listening(snap[j]) && snap[j].port == snap[i].port && snap[j].pid == snap[i].pid)
  }

  /** The kept rows in ascending (port, pid) order: what `list_ports` lists. */
  ghost function Listed(snap: seq<Listener>): (rows: seq<PortEntry>)
    ensures StrictlySortedBy(rows, EntryKey)
    ensures forall e :: e in rows <==> e in Kept(snap)
  {
    KeptSetDistinct(snap);
    SortedSeq<PortEntry>((set e | e in Kept(snap)), EntryKey)
  }

  /**
   * `list_ports`, over the outcome of `get_all`: its error is passed on as
   * text; otherwise the kept rows, sorted in place by (port, pid).
   */
  method ListPorts(snapshot: Result<seq<Listener>, string>) returns (r: Result<seq<PortEntry>, string>)
    ensures snapshot.Err? ==> r == Err(snapshot.error)
    ensures snapshot.Ok? ==> r == Ok(Listed(snapshot.value))
  {
    if snapshot.Err? {
      return Err(snapshot.error);
    }
    var entries := KeepListening(snapshot.value);
    var a := new PortEntry[|entries|](i requires 0 <= i < |entries| => entries[i]);
    assert a[..] == entries;
    KeptDistinct(snapshot.value);
    SortByKey(a, EntryKey);
    SortedDistinctIsStrict(a[..], EntryKey);
    SameMembers(a[..], entries);
    StrictlySortedUnique(a[..], Listed(snapshot.value), EntryKey);
    return Ok(a[..]);
  }

  lemma SameMembers(xs: seq<PortEntry>, ys: seq<PortEntry>)
    requires multiset(xs) == multiset(ys)
    ensures forall e :: e in xs <==> e in ys
  {
    forall e ensures e in xs <==> e in ys {
      assert e in xs <==> e in multiset(xs);
      assert e in ys <==> e in multiset(ys);
    }
  }

  /** The filtering loop, with its `seen` set of (port, pid) pairs. */
  method KeepListening(snap: seq<Listener>) returns (entries: seq<PortEntry>)
    ensures entries == Kept(snap)
  {
    var seen: set<(U16, U32)> := {};
    entries := [];
    for i := 0 to |snap|
      invariant entries == Kept(snap[..i])
      invariant seen == KeysOf(entries)
    {
      assert snap[..i + 1][..i] == snap[..i];
      var l := snap[i];
      if l.protocol != TCP {
        continue;
      }
      if l.port == 0 {
        continue;
      }
      if !IsUnspecified(l.ip) {
        continue;
      }
      if (l.port, l.pid) !in seen {
        seen := seen + {(l.port, l.pid)};
        entries := entries + [EntryOf(l)];
      }
    }
    assert snap[..|snap|] == snap;
  }

  // ---------------------------------------------------------------------------
  // What the kept rows are

  /** No two kept rows share a (port, pid). */
  lemma {:induction false} KeptDistinct(snap: seq<Listener>)
    ensures DistinctKeys(Kept(snap), EntryKey)
  {
    if snap != [] {
      var before := Kept(snap[..|snap| - 1]);
      var l := snap[|snap| - 1];
      KeptDistinct(snap[..|snap| - 1]);
      if Listening(l) && (l.port, l.pid) !in KeysOf(before) {
        var all := before + [EntryOf(l)];
        forall i, j | 0 <= i < j < |all| ensures EntryKey(all[i]) != EntryKey(all[j]) {
          EntryKeyOrder(all[i], all[j]);
          if j == |before| {
            assert all[i] in before;
          }
        }
      }
    }
  }

  /**
   * A row is kept exactly when it is the row of the first listed record with
   * its (port, pid): every kept row comes from a TCP binding with a non-zero
   * port on an unspecified address, copies its name and pid, and says "Running";
   * and every (port, pid) that some listed record has is kept once.
   */
  lemma {:induction false} KeptMeaning(snap: seq<Listener>)
    ensures forall e :: e in Kept(snap) <==> exists i :: FirstListening(snap, i) && e == EntryOf(snap[i])
  {
    if snap != [] {
      var n := |snap| - 1;
      var l := snap[n];
      KeptMeaning(snap[..n]);
      FirstListeningPrefix(snap);
      if Listening(l) {
        if (l.port, l.pid) !in KeysOf(Kept(snap[..n])) {
          KeptNewKey(snap);
        } else {
          KeptOldKey(snap, snap[..n]);
        }
      }
    }
  }

  /** The first listed records of a prefix are those of the whole snapshot that lie in the prefix. */
  lemma FirstListeningPrefix(snap: seq<Listener>)
    requires snap != []
    ensures forall i :: FirstListening(snap[..|snap| - 1], i) <==> 0 <= i < |snap| - 1 && FirstListening(snap, i)
  {
    var n := |snap| - 1;
    assert forall i :: 0 <= i < n ==> snap[..n][i] == snap[i];
  }

  /** A listed last record whose (port, pid) was not kept before is the first with its key. */
  lemma KeptNewKey(snap: seq<Listener>)
    requires snap != [] && Listening(snap[|snap| - 1])
    requires (snap[|snap| - 1].port, snap[|snap| - 1].pid) !in KeysOf(Kept(snap[..|snap| - 1]))
    ensures FirstListening(snap, |snap| - 1)
  {
    var n := |snap| - 1;
    forall j | 0 <= j < n && Listening(snap[j]) && snap[j].port == snap[n].port && snap[j].pid == snap[n].pid
      ensures false
    {
      assert snap[..n][j] == snap[j];
      KeptHasKey(snap[..n], j);
    }
  }

  /** A last record whose (port, pid) was kept before is not the first with its key. */
  lemma KeptOldKey(snap: seq<Listener>, init: seq<Listener>)
    requires snap != [] && init == snap[..|snap| - 1]
    requires forall e :: e in Kept(init) <==> exists i :: FirstListening(init, i) && e == EntryOf(init[i])
    requires (snap[|snap| - 1].port, snap[|snap| - 1].pid) in KeysOf(Kept(init))
    ensures !FirstListening(snap, |snap| - 1)
  {
    var n := |snap| - 1;
    var e :| e in Kept(init) && (e.port, e.pid) == (snap[n].port, snap[n].pid);
    var i :| FirstListening(init, i) && e == EntryOf(init[i]);
    assert init[i] == snap[i] && Listening(snap[i]);
  }

  /** Every listed record's (port, pid) is among the kept rows' keys. */
  lemma {:induction false} KeptHasKey(snap: seq<Listener>, i: nat)
    requires i < |snap| && Listening(snap[i])
    ensures (snap[i].port, snap[i].pid) in KeysOf(Kept(snap))
  {
    var n := |snap| - 1;
    var before := Kept(snap[..n]);
    if i < n {
      KeptHasKey(snap[..n], i);
      var e :| e in before && (e.port, e.pid) == (snap[i].port, snap[i].pid);
      assert e in Kept(snap);
    } else if (snap[n].port, snap[n].pid) !in KeysOf(before) {
      assert EntryOf(snap[n]) in Kept(snap);
    }
  }

  /** Kept rows with the same key are the same row. */
  lemma KeptSetDistinct(snap: seq<Listener>)
    ensures forall e, f :: e in Kept(snap) && f in Kept(snap) && EntryKey(e) == EntryKey(f) ==> e == f
  {
    var ks := Kept(snap);
    KeptDistinct(snap);
    forall e, f | e in ks && f in ks && EntryKey(e) == EntryKey(f) ensures e == f {
      var i :| 0 <= i < |ks| && ks[i] == e;
      var j :| 0 <= j < |ks| && ks[j] == f;
      assert i == j;
    }
  }

  /**
   * Every listed row says "Running" and is the row of the first listed record
   * with its (port, pid), copying its port, pid and name; every record that is
   * a TCP binding with a non-zero port on an unspecified address has its
   * (port, pid) listed.
   */
  lemma ListedRows(snap: seq<Listener>)
    ensures forall e :: e in Listed(snap) ==> e.status == Running
    ensures forall e :: e in Listed(snap) ==> exists i :: FirstListening(snap, i) && e == EntryOf(snap[i])
    ensures forall i :: 0 <= i < |snap| && Listening(snap[i]) ==>
              exists e :: e in Listed(snap) && e.port == snap[i].port && e.pid == snap[i].pid
  {
    KeptMeaning(snap);
    forall i | 0 <= i < |snap| && Listening(snap[i])
      ensures exists e :: e in Listed(snap) && e.port == snap[i].port && e.pid == snap[i].pid
    {
      KeptHasKey(snap, i);
      var e :| e in Kept(snap) && (e.port, e.pid) == (snap[i].port, snap[i].pid);
      assert e in Listed(snap);
    }
  }
}
