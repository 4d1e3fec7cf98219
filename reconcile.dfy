/** The diff-and-merge that updateEmployee runs over an employee's educations,
    certifications and skills: incoming items that name one of the employee's
    current records update that record in place, every other item becomes a new
    record, and the current records no item names are deleted. */
module ChildReconciliation {
  import opened Common
  import opened Entities
  import opened Dtos

  /** The non-null ids among the incoming items. */
  function IncomingIds(dtos: seq<ChildDto>): set<nat>
  {
    set d | d in dtos && d.id.Some? :: d.id.value
  }

  /** An incoming item names a current record when its id is non-null and is the
      id of one of the employee's current records. */
  predicate Matches(currentIds: set<nat>, d: ChildDto)
  {
    d.id.Some? && d.id.value in currentIds
  }

  /** The ids of the current records that are deleted. */
  function Orphans(currentIds: set<nat>, dtos: seq<ChildDto>): set<nat>
  {
    currentIds - IncomingIds(dtos)
  }

  /** Exactly the current records that no incoming item names are deleted, and
      every other current record is kept by some item. */
  lemma OrphansAreTheUnnamed(currentIds: set<nat>, dtos: seq<ChildDto>, k: nat)
    requires k in currentIds
    ensures k in Orphans(currentIds, dtos) <==>
              forall i :: 0 <= i < |dtos| ==> !(Matches(currentIds, dtos[i]) && dtos[i].id == Some(k))
    ensures Orphans(currentIds, dtos) <= currentIds
  {
    if k !in Orphans(currentIds, dtos) {
      var d :| d in dtos && d.id.Some? && d.id.value == k;
      var i :| 0 <= i < |dtos| && dtos[i] == d;
      assert Matches(currentIds, dtos[i]) && dtos[i].id == Some(k);
    }
  }

  /** A null incoming list is taken as empty, so every current record is deleted. */
  lemma NoItemsDeleteEverything(currentIds: set<nat>)
    ensures Orphans(currentIds, []) == currentIds
  {
    assert IncomingIds([]) == {};
  }

  /** Sending back every current record by its id deletes none of them. */
  lemma ResubmissionDeletesNothing(currentIds: set<nat>, dtos: seq<ChildDto>)
    requires forall k :: k in currentIds ==> exists i :: 0 <= i < |dtos| && dtos[i].id == Some(k)
    ensures Orphans(currentIds, dtos) == {}
  {
    forall k | k in currentIds ensures k in IncomingIds(dtos) {
      var i :| 0 <= i < |dtos| && dtos[i].id == Some(k);
      assert dtos[i] in dtos;
    }
  }

  /** An item carrying the id of a record that is not one of this employee's
      current records (another employee's, or a deleted one) is copied into a
      new record; the record it names is neither updated nor deleted. */
  lemma ForeignIdIsCopied(currentIds: set<nat>, dtos: seq<ChildDto>, i: nat)
    requires i < |dtos| && dtos[i].id.Some? && dtos[i].id.value !in currentIds
    ensures !Matches(currentIds, dtos[i])
    ensures dtos[i].id.value !in Orphans(currentIds, dtos)
  {
  }

  /** The scalar state of a record that incoming items can change. */
  datatype Fields = Fields(columns: Columns, version: Option<int>)

  /** ModelMapper with skip-null, mapping one item onto a record: every non-null
      column of the item, and a non-null version, overwrite the record's. */
  function MergeItem(f: Fields, d: ChildDto): Fields
  {
    Fields(f.columns + d.columns, Overlay(f.version, d.version))
  }

  /** A record's fields after every incoming item that names its id has been
      mapped onto it, in the items' order. */
  function MergeAll(f: Fields, id: nat, dtos: seq<ChildDto>): Fields
    decreases |dtos|
  {
    if dtos == [] then f
    else
      var before := MergeAll(f, id, dtos[..|dtos| - 1]);
      var d := dtos[|dtos| - 1];
      if d.id == Some(id) then MergeItem(before, d) else before
  }

  /** Items naming other records leave a record's fields alone. */
  lemma {:induction false} UnnamedRecordUnchanged(f: Fields, id: nat, dtos: seq<ChildDto>)
    requires forall i :: 0 <= i < |dtos| ==> dtos[i].id != Some(id)
    ensures MergeAll(f, id, dtos) == f
    decreases |dtos|
  {
    if dtos != [] {
      UnnamedRecordUnchanged(f, id, dtos[..|dtos| - 1]);
    }
  }

  /** A column that no item naming the record carries keeps its current value. */
  lemma {:induction false} UncarriedColumnKept(f: Fields, id: nat, dtos: seq<ChildDto>, name: string)
    requires name in f.columns
    requires forall i :: 0 <= i < |dtos| && dtos[i].id == Some(id) ==> name !in dtos[i].columns
    ensures name in MergeAll(f, id, dtos).columns
    ensures MergeAll(f, id, dtos).columns[name] == f.columns[name]
    decreases |dtos|
  {
    if dtos != [] {
      UncarriedColumnKept(f, id, dtos[..|dtos| - 1], name);
    }
  }

  /** A column carried by items naming the record ends with the value of the last
      such item. */
  lemma {:induction false} LastCarrierWins(f: Fields, id: nat, dtos: seq<ChildDto>, i: nat, name: string)
    requires i < |dtos| && dtos[i].id == Some(id) && name in dtos[i].columns
    requires forall j :: i < j < |dtos| && dtos[j].id == Some(id) ==> name !in dtos[j].columns
    ensures name in MergeAll(f, id, dtos).columns
    ensures MergeAll(f, id, dtos).columns[name] == dtos[i].columns[name]
    decreases |dtos|
  {
    var prefix := dtos[..|dtos| - 1];
    if i < |dtos| - 1 {
      LastCarrierWins(f, id, prefix, i, name);
    }
  }

  /** Mapping back the record's own fields, the way the client received them,
      changes nothing however often it is done. */
  lemma {:induction false} ResubmittedFieldsUnchanged(f: Fields, id: nat, dtos: seq<ChildDto>)
    requires forall i :: 0 <= i < |dtos| && dtos[i].id == Some(id) ==>
               dtos[i].columns == f.columns && (dtos[i].version.None? || dtos[i].version == f.version)
    ensures MergeAll(f, id, dtos) == f
    decreases |dtos|
  {
    if dtos != [] {
      ResubmittedFieldsUnchanged(f, id, dtos[..|dtos| - 1]);
      assert f.columns + f.columns == f.columns;
    }
  }

  /** The position of the first current record with the given id, or |current|. */
  function IndexOfId<K>(current: seq<Child<K>>, id: nat): (j: nat)
    reads (set c | c in current)`id
    ensures j <= |current|
    ensures j < |current| ==> current[j].id == Some(id)
    ensures forall k :: 0 <= k < j ==> current[k].id != Some(id)
    decreases |current|
  {
    if current == [] then 0
    else if current[0].id == Some(id) then 0
    else 1 + IndexOfId(current[1..], id)
  }

  lemma MergeAllSnoc(f: Fields, id: nat, dtos: seq<ChildDto>, i: nat)
    requires i < |dtos|
    ensures MergeAll(f, id, dtos[..i + 1]) ==
            if dtos[i].id == Some(id) then MergeItem(MergeAll(f, id, dtos[..i]), dtos[i])
            else MergeAll(f, id, dtos[..i])
  {
    assert dtos[..i + 1][..i] == dtos[..i];
  }

  /** One turn of the loop: the current record the item names, updated in place,
      or a new record built from the item; either way now owned by `owner`. */
  method MapItem<K>(owner: Employee, dto: ChildDto, current: seq<Child<K>>, ghost currentIds: set<nat>)
      returns (record: Child<K>)
    requires currentIds == IdsOf(current)
    requires forall j :: 0 <= j < |current| ==> current[j].id.Some?
    requires forall i, j :: 0 <= i < j < |current| ==> current[i].id != current[j].id
    modifies (set c | c in current)`columns, (set c | c in current)`version, (set c | c in current)`employee
    ensures record.employee == owner
    ensures Matches(currentIds, dto) ==> record in current && record.id == dto.id
    ensures !Matches(currentIds, dto) ==>
              fresh(record) && record.id == None && record.version == Some(0) && record.columns == dto.columns
    ensures forall j :: 0 <= j < |current| ==>
              Fields(current[j].columns, current[j].version) ==
              if current[j].id == dto.id then MergeItem(Fields(old(current[j].columns), old(current[j].version)), dto)
              else Fields(old(current[j].columns), old(current[j].version))
    ensures forall j :: 0 <= j < |current| && current[j] != record ==> current[j].employee == old(current[j].employee)
  {
    if dto.id.Some? && dto.id.value in IdsOf(current) {
      var m := IndexOfId(current, dto.id.value);
      assert m < |current| by {
        var c :| c in current && c.id.Some? && c.id.value == dto.id.value;
        var w :| 0 <= w < |current| && current[w] == c;
      }
      record := current[m];
      record.columns := record.columns + dto.columns;
      record.version := Overlay(record.version, dto.version);
    } else {
      record := new Child<K>.New(dto.columns);
      assert forall j :: 0 <= j < |current| ==> current[j].id != dto.id by {
        forall j | 0 <= j < |current| ensures current[j].id != dto.id {
          assert current[j] in current;
        }
      }
    }
    record.employee := owner;
  }

  /** The current records whose id is not among the incoming ids. */
  method CollectOrphans<K>(current: seq<Child<K>>, incoming: set<nat>) returns (orphans: seq<Child<K>>)
    requires forall j :: 0 <= j < |current| ==> current[j].id.Some?
    ensures forall c :: c in orphans <==> c in current && c.id.value !in incoming
  {
    orphans := [];
    for j := 0 to |current|
      invariant forall c :: c in orphans <==> c in current[..j] && c.id.value !in incoming
    {
      assert current[..j + 1] == current[..j] + [current[j]];
      if current[j].id.value !in incoming {
        orphans := orphans + [current[j]];
      }
    }
    assert current[..|current|] == current;
  }

  /** updateEducations, updateCertifications and updateSkills. The returned list
      replaces the employee's list, and the returned orphans are deleted. */
  method UpdateChildren<K>(owner: Employee, dtos: seq<ChildDto>, current: seq<Child<K>>)
      returns (list: seq<Child<K>>, orphans: seq<Child<K>>)
    requires forall j :: 0 <= j < |current| ==> current[j].id.Some?
    requires forall i, j :: 0 <= i < j < |current| ==> current[i].id != current[j].id
    modifies (set c | c in current)`columns, (set c | c in current)`version, (set c | c in current)`employee
    ensures |list| == |dtos|
    ensures forall i :: 0 <= i < |dtos| ==> list[i].employee == owner
    ensures forall i :: 0 <= i < |dtos| && Matches(IdsOf(current), dtos[i]) ==>
              list[i] in current && list[i].id == dtos[i].id
    ensures forall i :: 0 <= i < |dtos| && !Matches(IdsOf(current), dtos[i]) ==>
              fresh(list[i]) && list[i].id == None && list[i].version == Some(0) &&
              list[i].columns == dtos[i].columns
    ensures forall j :: 0 <= j < |current| ==>
              Fields(current[j].columns, current[j].version) ==
              MergeAll(Fields(old(current[j].columns), old(current[j].version)), current[j].id.value, dtos)
    ensures forall j :: 0 <= j < |current| && current[j] !in list ==> current[j].employee == old(current[j].employee)
    ensures forall c :: c in orphans <==> c in current && c.id.value in Orphans(IdsOf(current), dtos)
  {
    ghost var currentIds := IdsOf(current);
    list := [];
    for i := 0 to |dtos|
      invariant |list| == i
      invariant forall k :: 0 <= k < i ==> list[k].employee == owner
      invariant forall k :: 0 <= k < i && Matches(currentIds, dtos[k]) ==>
                  list[k] in current && list[k].id == dtos[k].id
      invariant forall k :: 0 <= k < i && !Matches(currentIds, dtos[k]) ==>
                  fresh(list[k]) && list[k].id == None && list[k].version == Some(0) &&
                  list[k].columns == dtos[k].columns
      invariant forall j :: 0 <= j < |current| ==>
                  Fields(current[j].columns, current[j].version) ==
                  MergeAll(Fields(old(current[j].columns), old(current[j].version)), current[j].id.value, dtos[..i])
      invariant forall j :: 0 <= j < |current| && current[j] !in list ==>
                  current[j].employee == old(current[j].employee)
    {
      var record := MapItem(owner, dtos[i], current, currentIds);
      forall j | 0 <= j < |current|
        ensures Fields(current[j].columns, current[j].version) ==
                MergeAll(Fields(old(current[j].columns), old(current[j].version)), current[j].id.value, dtos[..i + 1])
      {
        MergeAllSnoc(Fields(old(current[j].columns), old(current[j].version)), current[j].id.value, dtos, i);
      }
      list := list + [record];
    }
    assert dtos[..|dtos|] == dtos;
    orphans := CollectOrphans(current, IncomingIds(dtos));
  }
}
