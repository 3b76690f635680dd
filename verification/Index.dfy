/** The index file of an OCI layout: how its names resolve, and what deleting,
    untagging and forgetting do to the entries it is read as. */
module Index {
  import opened Wrappers
  import opened Graph
  import opened Collection

  /** A manifest as index.json lists it; `name` is "" when it has none. */
  datatype Row = Row(desc: Descriptor, name: string)

  /** The tag a row holds, given the rows after it. The layout resolves a name
      to the last row claiming it, each row also claims its own digest, and a
      name equal to the digest is no tag. */
  function RefOf(row: Row, later: seq<Row>): string {
    if row.name == "" || row.name == row.desc.digest then ""
    else if exists r :: r in later && (r.name == row.name || r.desc.digest == row.name) then ""
    else row.name
  }

  function EntryOf(l: Layout, row: Row, later: seq<Row>): Entry {
    var h := HeadOf(l, row.desc);
    Entry(row.desc, RefOf(row, later), h.subject, h.describes)
  }

  /** `readIndex`: every row classified, in the index's own order. */
  function ReadRows(l: Layout, rows: seq<Row>): (es: seq<Entry>)
    ensures |es| == |rows|
  {
    if rows == [] then [] else [EntryOf(l, rows[0], rows[1..])] + ReadRows(l, rows[1..])
  }

  ghost predicate OneDescriptorPerDigest(rows: seq<Row>) {
    forall r, s :: r in rows && s in rows && r.desc.digest == s.desc.digest ==> r.desc == s.desc
  }

  /** No row is named by another's digest. */
  ghost predicate NamesApart(rows: seq<Row>) {
    forall r, s :: r in rows && s in rows && r.name == s.desc.digest ==> r.desc.digest == r.name
  }

  ghost function View(l: Layout, rows: seq<Row>): set<Entry> {
    EntrySet(ReadRows(l, rows))
  }

  lemma ViewCons(l: Layout, row: Row, rows: seq<Row>)
    ensures View(l, [row] + rows) == {EntryOf(l, row, rows)} + View(l, rows)
  {
    assert ([row] + rows)[1..] == rows;
  }

  lemma {:induction false} ReadRowsAt(l: Layout, rows: seq<Row>, k: nat)
    requires k < |rows|
    ensures ReadRows(l, rows)[k] == EntryOf(l, rows[k], rows[k + 1..])
  {
    if k > 0 {
      ReadRowsAt(l, rows[1..], k - 1);
      assert rows[1..][k..] == rows[k + 1..];
    }
  }

  lemma {:induction false} ViewWellFormed(l: Layout, rows: seq<Row>)
    requires OneDescriptorPerDigest(rows)
    ensures WellFormed(l, View(l, rows))
    ensures forall e :: e in View(l, rows) ==> exists r :: r in rows && r.desc == e.desc
  {
    forall e | e in View(l, rows)
      ensures Reads(l, e) && exists r :: r in rows && r.desc == e.desc
    {
      var k :| 0 <= k < |rows| && ReadRows(l, rows)[k] == e;
      ReadRowsAt(l, rows, k);
      assert rows[k] in rows;
    }
  }

  // ----- the source's own way of resolving names

  ghost predicate Holds(rows: seq<Row>, i: nat)
    requires i < |rows|
  {
    rows[i].name != "" && forall j :: i < j < |rows| ==> rows[j].name != rows[i].name && rows[j].desc.digest != rows[i].name
  }

  /** What the map of last claims says once the first k rows are read. */
  ghost predicate LastClaims(rows: seq<Row>, k: nat, last: map<string, int>)
    requires k <= |rows|
  {
    forall i :: 0 <= i < k && rows[i].name != "" ==>
                  rows[i].name in last
                  && (last[rows[i].name] == i <==>
                      forall j :: i < j < k ==> rows[j].name != rows[i].name && rows[j].desc.digest != rows[i].name)
  }

  lemma NextClaims(rows: seq<Row>, k: nat, last: map<string, int>)
    requires k < |rows| && LastClaims(rows, k, last)
    requires forall n :: n in last ==> last[n] < k
    ensures var tagged := last[rows[k].desc.digest := -1];
            LastClaims(rows, k + 1, if rows[k].name == "" then tagged else tagged[rows[k].name := k])
  {
    var tagged := last[rows[k].desc.digest := -1];
    var next := if rows[k].name == "" then tagged else tagged[rows[k].name := k];
    forall i | 0 <= i < k + 1 && rows[i].name != ""
      ensures rows[i].name in next
      ensures next[rows[i].name] == i <==>
              forall j :: i < j < k + 1 ==> rows[j].name != rows[i].name && rows[j].desc.digest != rows[i].name
    {
      if i < k {
        assert rows[k].name == rows[i].name ==> next[rows[i].name] == k;
      }
    }
  }

  /** One pass over the rows, keeping the last claim on every name. */
  method NamedEntries(rows: seq<Row>) returns (named: seq<bool>)
    ensures |named| == |rows|
    ensures forall i :: 0 <= i < |rows| ==> (named[i] <==> Holds(rows, i))
  {
    var last: map<string, int> := map[];
    for k := 0 to |rows|
      invariant LastClaims(rows, k, last)
      invariant forall n :: n in last ==> last[n] < k
    {
      NextClaims(rows, k, last);
      last := last[rows[k].desc.digest := -1];
      if rows[k].name != "" {
        last := last[rows[k].name := k];
      }
    }
    named := [];
    for k := 0 to |rows|
      invariant |named| == k
      invariant forall i :: 0 <= i < k ==> (named[i] <==> Holds(rows, i))
    {
      var name := rows[k].name;
      named := named + [name != "" && last[name] == k];
    }
  }

  lemma HoldsIsRef(rows: seq<Row>, i: nat)
    requires i < |rows|
    ensures RefOf(rows[i], rows[i + 1..])
            == if rows[i].name == rows[i].desc.digest || !Holds(rows, i) then "" else rows[i].name
  {
    assert forall j :: i < j < |rows| ==> rows[i + 1..][j - i - 1] == rows[j];
  }

  method ReadIndex(l: Layout, rows: seq<Row>) returns (entries: seq<Entry>)
    ensures entries == ReadRows(l, rows)
  {
    var named := NamedEntries(rows);
    entries := [];
    for k := 0 to |rows|
      invariant |entries| == k
      invariant forall i :: 0 <= i < k ==> entries[i] == ReadRows(l, rows)[i]
    {
      var head := ReadHead(l, rows[k].desc);
      var h := if head.Some? then head.value else NO_HEAD;
      var ref := rows[k].name;
      if ref == rows[k].desc.digest || !named[k] {
        ref := "";
      }
      HoldsIsRef(rows, k);
      ReadRowsAt(l, rows, k);
      entries := entries + [Entry(rows[k].desc, ref, h.subject, h.describes)];
    }
  }

  // ----- deleting: the layout writes back what it resolved, less what went

  function DropRows(rows: seq<Row>, gone: set<Digest>): seq<Row> {
    if rows == [] then []
    else
      (if rows[0].desc.digest in gone then [] else [Row(rows[0].desc, RefOf(rows[0], rows[1..]))])
      + DropRows(rows[1..], gone)
  }

  ghost predicate ComesFrom(r: Row, rows: seq<Row>) {
    exists s :: s in rows && r.desc == s.desc && (r.name == "" || r.name == s.name)
  }

  lemma {:induction false} DropRowsFrom(rows: seq<Row>, gone: set<Digest>)
    ensures forall r :: r in DropRows(rows, gone) ==> ComesFrom(r, rows)
  {
    if rows != [] {
      DropRowsFrom(rows[1..], gone);
      forall r | r in DropRows(rows, gone)
        ensures ComesFrom(r, rows)
      {
        if r !in DropRows(rows[1..], gone) {
          assert rows[0] in rows;
        } else {
          var s :| s in rows[1..] && r.desc == s.desc && (r.name == "" || r.name == s.name);
          assert s in rows;
        }
      }
    }
  }

  /** Resolved rows whose names came from later rows hold what they held. */
  lemma RefStable(row: Row, later: seq<Row>, later': seq<Row>)
    requires forall r :: r in later' ==> ComesFrom(r, later)
    ensures RefOf(Row(row.desc, RefOf(row, later)), later') == RefOf(row, later)
  {
    var ref := RefOf(row, later);
    if ref != "" {
      forall r | r in later'
        ensures r.name != ref && r.desc.digest != ref
      {
        var s :| s in later && r.desc == s.desc && (r.name == "" || r.name == s.name);
      }
    }
  }

  lemma {:induction false} DropRowsView(l: Layout, rows: seq<Row>, gone: set<Digest>)
    ensures View(l - gone, DropRows(rows, gone))
            == set e | e in View(l, rows) && e.desc.digest !in gone
  {
    if rows != [] {
      var row, later := rows[0], rows[1..];
      DropRowsView(l, later, gone);
      DropRowsFrom(later, gone);
      assert rows == [row] + later;
      ViewCons(l, row, later);
      if row.desc.digest !in gone {
        var row' := Row(row.desc, RefOf(row, later));
        ViewCons(l - gone, row', DropRows(later, gone));
        RefStable(row, later, DropRows(later, gone));
      } else {
        assert DropRows(rows, gone) == DropRows(later, gone);
      }
    }
  }

  /** The same with the blobs left where they are: the entries that remain do
      not depend on them. */
  lemma DropRowsListed(l: Layout, rows: seq<Row>, gone: set<Digest>)
    ensures View(l, DropRows(rows, gone)) == set e | e in View(l, rows) && e.desc.digest !in gone
  {
    DropRowsView(l, rows, gone);
    DropRowsApart(rows, gone);
    SameHeads(l, l - gone, DropRows(rows, gone));
  }

  lemma {:induction false} DropRowsApart(rows: seq<Row>, gone: set<Digest>)
    ensures forall r :: r in DropRows(rows, gone) ==> r.desc.digest !in gone
  {
    if rows != [] {
      DropRowsApart(rows[1..], gone);
    }
  }

  lemma {:induction false} SameHeads(l: Layout, l': Layout, rows: seq<Row>)
    requires forall r :: r in rows ==> HeadOf(l, r.desc) == HeadOf(l', r.desc)
    ensures ReadRows(l, rows) == ReadRows(l', rows)
  {
    if rows != [] {
      assert rows[0] in rows;
      SameHeads(l, l', rows[1..]);
    }
  }

  // ----- untagging: the row that holds a name loses it

  function UntagRows(rows: seq<Row>, ref: string): seq<Row> {
    if rows == [] then []
    else
      var held := RefOf(rows[0], rows[1..]);
      [Row(rows[0].desc, if held == ref then "" else held)] + UntagRows(rows[1..], ref)
  }

  function Untagged(e: Entry, ref: string): Entry {
    if e.ref == ref then e.(ref := "") else e
  }

  lemma {:induction false} UntagRowsFrom(rows: seq<Row>, ref: string)
    ensures forall r :: r in UntagRows(rows, ref) ==> ComesFrom(r, rows)
  {
    if rows != [] {
      UntagRowsFrom(rows[1..], ref);
      forall r | r in UntagRows(rows, ref)
        ensures ComesFrom(r, rows)
      {
        if r !in UntagRows(rows[1..], ref) {
          assert rows[0] in rows;
        } else {
          var s :| s in rows[1..] && r.desc == s.desc && (r.name == "" || r.name == s.name);
          assert s in rows;
        }
      }
    }
  }

  lemma {:induction false} UntagRowsView(l: Layout, rows: seq<Row>, ref: string)
    ensures View(l, UntagRows(rows, ref)) == set e | e in View(l, rows) :: Untagged(e, ref)
  {
    if rows != [] {
      var row, later := rows[0], rows[1..];
      UntagRowsView(l, later, ref);
      UntagRowsFrom(later, ref);
      assert rows == [row] + later;
      ViewCons(l, row, later);
      var held := RefOf(row, later);
      ViewCons(l, Row(row.desc, if held == ref then "" else held), UntagRows(later, ref));
      RefStable(row, later, UntagRows(later, ref));
    }
  }

  // ----- forgetting: untagged rows go, the others stay as they were written

  function ForgetRows(rows: seq<Row>, ds: set<Digest>): seq<Row> {
    if rows == [] then []
    else
      (if rows[0].desc.digest in ds && RefOf(rows[0], rows[1..]) == "" then [] else [rows[0]])
      + ForgetRows(rows[1..], ds)
  }

  lemma ForgetRowsCons(row: Row, later: seq<Row>, ds: set<Digest>)
    ensures ForgetRows([row] + later, ds)
            == if row.desc.digest in ds && RefOf(row, later) == "" then ForgetRows(later, ds)
               else [row] + ForgetRows(later, ds)
  {
    assert ([row] + later)[1..] == later;
  }

  lemma {:induction false} ForgetRowsFrom(rows: seq<Row>, ds: set<Digest>)
    ensures forall r :: r in ForgetRows(rows, ds) ==> r in rows
  {
    if rows != [] {
      ForgetRowsFrom(rows[1..], ds);
    }
  }

  /** The last claim on a name is held, so it is not forgotten. */
  lemma {:induction false} LastClaimStays(rows: seq<Row>, ds: set<Digest>, r: Row)
    requires r in rows && r.name != "" && forall s :: s in rows ==> s.desc.digest != r.name
    ensures exists s :: s in ForgetRows(rows, ds) && s.name == r.name
  {
    var later := rows[1..];
    if s :| s in later && s.name == r.name {
      LastClaimStays(later, ds, s);
      var t :| t in ForgetRows(later, ds) && t.name == r.name;
      assert t in ForgetRows(rows, ds);
    } else {
      assert rows[0] == r;
      assert RefOf(r, later) == r.name;
      assert r in ForgetRows(rows, ds);
    }
  }

  lemma ForgetRefStable(row: Row, later: seq<Row>, ds: set<Digest>)
    requires NamesApart([row] + later)
    ensures RefOf(row, ForgetRows(later, ds)) == RefOf(row, later)
  {
    ForgetRowsFrom(later, ds);
    assert row in [row] + later;
    assert forall s :: s in later ==> s in [row] + later;
    if row.name != "" && row.name != row.desc.digest {
      if r :| r in later && r.name == row.name {
        LastClaimStays(later, ds, r);
      }
    }
  }

  ghost function Remembered(es: set<Entry>, ds: set<Digest>): set<Entry> {
    set e | e in es && (e.Tagged() || e.desc.digest !in ds)
  }

  lemma RememberedCons(e: Entry, es: set<Entry>, ds: set<Digest>)
    ensures Remembered({e} + es, ds)
            == (if e.Tagged() || e.desc.digest !in ds then {e} else {}) + Remembered(es, ds)
  {
  }

  lemma {:induction false} ForgetRowsView(l: Layout, rows: seq<Row>, ds: set<Digest>)
    requires NamesApart(rows)
    ensures View(l, ForgetRows(rows, ds)) == Remembered(View(l, rows), ds)
  {
    if rows != [] {
      var row, later := rows[0], rows[1..];
      assert rows == [row] + later;
      ForgetRowsView(l, later, ds);
      ViewCons(l, row, later);
      RememberedCons(EntryOf(l, row, later), View(l, later), ds);
      ForgetRowsCons(row, later, ds);
      if !(row.desc.digest in ds && RefOf(row, later) == "") {
        ViewCons(l, row, ForgetRows(later, ds));
        ForgetRefStable(row, later, ds);
      }
    }
  }

  // ----- what an index must be stays so

  /** Digests are not empty, each has one descriptor, and names stay apart. */
  ghost predicate Sound(rows: seq<Row>) {
    OneDescriptorPerDigest(rows) && NamesApart(rows) && forall r :: r in rows ==> r.desc.digest != ""
  }

  lemma SoundFrom(rows: seq<Row>, rows': seq<Row>)
    requires Sound(rows) && forall r :: r in rows' ==> ComesFrom(r, rows)
    ensures Sound(rows')
  {
  }

  /** A tag is held by one entry. */
  ghost predicate TagsUnique(es: set<Entry>) {
    forall e, f :: e in es && f in es && e.Tagged() && e.ref == f.ref ==> e == f
  }

  lemma HeldLater(l: Layout, row: Row, later: seq<Row>, e: Entry)
    requires RefOf(row, later) != "" && e in View(l, later)
    ensures e.ref != RefOf(row, later)
  {
    var k :| 0 <= k < |later| && ReadRows(l, later)[k] == e;
    ReadRowsAt(l, later, k);
    assert later[k] in later;
  }

  lemma {:induction false} ViewTagsUnique(l: Layout, rows: seq<Row>)
    ensures TagsUnique(View(l, rows))
  {
    if rows != [] {
      var row, later := rows[0], rows[1..];
      ViewTagsUnique(l, later);
      assert rows == [row] + later;
      ViewCons(l, row, later);
      if RefOf(row, later) != "" {
        forall e | e in View(l, later)
          ensures e.ref != RefOf(row, later)
        {
          HeldLater(l, row, later, e);
        }
      }
    }
  }
}
