/** Grouping the rows of a batch by device. */
module Grouping {
  import opened Wrappers

  /** The rows of one device, in order; a row without a device belongs to none. */
  function RowsOf(devices: seq<Option<string>>, device: string): (rows: seq<nat>)
    ensures forall i :: 0 <= i < |rows| ==> rows[i] < |devices|
    decreases |devices|
  {
    if |devices| == 0 then []
    else
      var n := |devices| - 1;
      RowsOf(devices[..n], device) + if devices[n] == Some(device) then [n] else []
  }

  /** The groups are those of `devices`, and none is empty. */
  ghost predicate Grouped(devices: seq<Option<string>>, groups: map<string, seq<nat>>) {
    && (forall d :: d in groups ==> groups[d] == RowsOf(devices, d) && groups[d] != [])
    && (forall d :: RowsOf(devices, d) != [] ==> d in groups)
  }

  lemma MoreRows(devices: seq<Option<string>>, row: nat, device: string)
    requires row < |devices|
    ensures RowsOf(devices[..row + 1], device)
         == RowsOf(devices[..row], device) + if devices[row] == Some(device) then [row] else []
  {
    assert devices[..row + 1][..row] == devices[..row];
  }

  lemma GroupStep(devices: seq<Option<string>>, row: nat, groups: map<string, seq<nat>>)
    requires row < |devices| && Grouped(devices[..row], groups)
    ensures devices[row].None? ==> Grouped(devices[..row + 1], groups)
    ensures devices[row].Some? ==>
      var device := devices[row].value;
      var group := if device in groups then groups[device] else [];
      Grouped(devices[..row + 1], groups[device := group + [row]])
  {
    hide RowsOf;
    forall d: string
      ensures RowsOf(devices[..row + 1], d)
           == RowsOf(devices[..row], d) + if devices[row] == Some(d) then [row] else []
    {
      MoreRows(devices, row, d);
    }
  }

  /** The grouping loop: one pass, every row appended to the group of its device. */
  method GroupRows(devices: seq<Option<string>>) returns (groups: map<string, seq<nat>>)
    ensures Grouped(devices, groups)
  {
    hide RowsOf, Grouped;
    groups := map[];
    var row := 0;
    NoGroups(devices);
    while row < |devices|
      invariant 0 <= row <= |devices| && Grouped(devices[..row], groups)
    {
      GroupStep(devices, row, groups);
      ghost var before := groups;
      if devices[row].Some? {
        var device := devices[row].value;
        if device !in groups {
          groups := groups[device := []];
        }
        groups := groups[device := groups[device] + [row]];
        assert groups == before[device := groups[device]];
      }
      row := row + 1;
    }
    assert devices[..row] == devices;
  }

  lemma NoGroups(devices: seq<Option<string>>)
    ensures Grouped(devices[..0], map[])
  {
  }

  /** A group holds exactly its device's rows, once each, in increasing order. */
  lemma {:induction false} GroupIs(devices: seq<Option<string>>, device: string)
    ensures forall r :: r in RowsOf(devices, device) <==> 0 <= r < |devices| && devices[r] == Some(device)
    ensures forall i, j :: 0 <= i < j < |RowsOf(devices, device)| ==>
      RowsOf(devices, device)[i] < RowsOf(devices, device)[j]
    decreases |devices|
  {
    if |devices| > 0 {
      GroupIs(devices[..|devices| - 1], device);
    }
  }

  /** All groups one after the other, in any order of the devices. */
  function Flattened(devices: seq<Option<string>>, order: seq<string>): (rows: seq<nat>) {
    if |order| == 0 then [] else RowsOf(devices, order[0]) + Flattened(devices, order[1..])
  }

  lemma {:induction false} CountOfIncreasing(s: seq<nat>, r: nat)
    requires forall i, j :: 0 <= i < j < |s| ==> s[i] < s[j]
    ensures multiset(s)[r] == if r in s then 1 else 0
    decreases |s|
  {
    if |s| > 0 {
      var n := |s| - 1;
      CountOfIncreasing(s[..n], r);
      assert s == s[..n] + [s[n]];
    }
  }

  /** No row is lost or doubled: the groups partition the rows that have a device. */
  lemma {:induction false} GroupsPartition(devices: seq<Option<string>>, order: seq<string>, r: nat)
    requires forall i, j :: 0 <= i < j < |order| ==> order[i] != order[j]
    ensures multiset(Flattened(devices, order))[r]
         == if r < |devices| && devices[r].Some? && devices[r].value in order then 1 else 0
    decreases |order|
  {
    if |order| > 0 {
      var d := order[0];
      GroupIs(devices, d);
      CountOfIncreasing(RowsOf(devices, d), r);
      GroupsPartition(devices, order[1..], r);
      assert order == [d] + order[1..];
      assert d !in order[1..];
    }
  }
}
