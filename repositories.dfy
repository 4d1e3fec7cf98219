/** The Spring Data repositories as in-memory tables: each maps the ids the
    database assigned to the entity objects stored under them. Every table has
    its own IDENTITY counter. Derived queries (`findByEmployeeEmployeeId` and the
    like) are filters over a table; a row belongs to an employee when its
    `employee` reference is that employee's object. */
module Repositories {
  import opened Common
  import opened Entities
  import opened EmployeeQueries
  import opened LeaveQueries
  import opened ChildReconciliation

  class EmployeeRepository {
    var rows: map<nat, Employee>
    var nextId: nat

    /** Every row is stored under its own id, below the next id to hand out. */
    ghost predicate Valid()
      reads this, rows.Values`id
    {
      forall k {:trigger rows[k]} :: k in rows ==> rows[k].id == Some(k) && k < nextId
    }

    constructor ()
      ensures Valid() && rows == map[]
    {
      rows, nextId := map[], 0;
    }

    /** The three unique columns of every row, which the existsBy and findBy
        queries range over. */
    function Contacts(): (t: Contacts)
      reads this, rows.Values`email, rows.Values`personalEmail, rows.Values`mobile
      ensures t.Keys == rows.Keys
      ensures forall k :: k in rows ==> t[k].email == rows[k].email && t[k].personalEmail == rows[k].personalEmail &&
                                         t[k].mobile == rows[k].mobile
    {
      map k | k in rows :: Contact(rows[k].email, rows[k].personalEmail, rows[k].mobile)
    }

    /** When only the row under `id` may have had its unique columns changed,
        the contacts change only at `id`. */
    twostate lemma ContactsAfterColumns(id: nat)
      requires old(Valid()) && id in old(rows) && unchanged(this)
      requires forall k :: k in rows && k != id ==>
                 rows[k].email == old(rows[k].email) && rows[k].personalEmail == old(rows[k].personalEmail) &&
                 rows[k].mobile == old(rows[k].mobile)
      ensures Contacts() == old(Contacts())[id := Contact(rows[id].email, rows[id].personalEmail, rows[id].mobile)]
    {
    }

    /** When no row's id or unique columns have changed, neither have the
        contacts nor the validity of the table. */
    twostate lemma RowsKept()
      requires unchanged(this)
      requires forall k :: k in rows ==>
                 rows[k].id == old(rows[k].id) && rows[k].email == old(rows[k].email) &&
                 rows[k].personalEmail == old(rows[k].personalEmail) && rows[k].mobile == old(rows[k].mobile)
      ensures Contacts() == old(Contacts())
      ensures old(Valid()) ==> Valid()
    {
    }

    /** The role of every row. */
    function Roles(): (roles: map<nat, Role>)
      reads this, rows.Values`role
      ensures roles.Keys == rows.Keys
      ensures forall k :: k in rows ==> roles[k] == rows[k].role
    {
      map k | k in rows :: rows[k].role
    }

    /** The ids of the employees whose team column names `team`: the rows behind
        the team's `members` collection, which that column maps. */
    function OfTeam(team: Team): set<nat>
      reads this, rows.Values`team
    {
      set k | k in rows && rows[k].team == team
    }

    /** When only the team column of the row under `id` may have changed, that
        row joins the members of its new team and leaves those of every other. */
    twostate lemma TeamMoved(id: nat)
      requires old(Valid()) && unchanged(this) && id in rows
      requires forall k :: k in rows && k != id ==> rows[k].team == old(rows[k].team)
      ensures forall team: Team :: old(allocated(team)) ==>
                OfTeam(team) == if rows[id].team == team then old(OfTeam(team)) + {id} else old(OfTeam(team)) - {id}
    {
    }

    /** When only the team column of the row under `id` may have changed, its
        new team gains at most that one member and every other team loses
        members or keeps them. */
    twostate lemma TeamSizes(id: nat)
      requires old(Valid()) && unchanged(this) && id in rows
      requires forall k :: k in rows && k != id ==> rows[k].team == old(rows[k].team)
      ensures forall team: Team :: old(allocated(team)) ==>
                OfTeam(team) == if rows[id].team == team then old(OfTeam(team)) + {id} else old(OfTeam(team)) - {id}
      ensures forall team: Team :: old(allocated(team)) ==>
                |OfTeam(team)| <= if rows[id].team == team then old(|OfTeam(team)|) + 1 else old(|OfTeam(team)|)
    {
      TeamMoved(id);
      forall team: Team | old(allocated(team))
        ensures |OfTeam(team)| <= if rows[id].team == team then old(|OfTeam(team)|) + 1 else old(|OfTeam(team)|)
      {
        if rows[id].team != team {
          assert OfTeam(team) <= old(OfTeam(team));
        }
      }
    }

    /** The lazy load of a team's `members` collection: the employees whose team
        column names the team, each once, in no particular order. */
    method MembersOf(team: Team) returns (list: seq<Employee>)
      requires Valid()
      ensures |list| == |OfTeam(team)|
      ensures forall i :: 0 <= i < |list| ==> list[i] in rows.Values && list[i].team == team
      ensures forall k :: k in OfTeam(team) ==> rows[k] in list
    {
      list := [];
      var left := OfTeam(team);
      while left != {}
        invariant left <= OfTeam(team)
        invariant |list| + |left| == |OfTeam(team)|
        invariant forall i :: 0 <= i < |list| ==> list[i] in rows.Values && list[i].team == team
        invariant forall k :: k in OfTeam(team) - left ==> rows[k] in list
        decreases |left|
      {
        var k :| k in left;
        list := list + [rows[k]];
        left := left - {k};
      }
    }

    /** save() of a new employee: the row is inserted under the next id. */
    method Insert(e: Employee) returns (id: nat)
      requires Valid() && e.id.None?
      modifies this, e`id
      ensures Valid()
      ensures id == old(nextId) && id !in old(rows) && e.id == Some(id) && nextId == id + 1
      ensures rows == old(rows)[id := e]
    {
      id := nextId;
      e.id := Some(id);
      rows := rows[id := e];
      nextId := nextId + 1;
    }

    /** deleteById: a missing id is ignored. */
    method DeleteById(id: nat)
      requires Valid()
      modifies this`rows
      ensures Valid()
      ensures rows == old(rows) - {id}
      ensures Contacts() == old(Contacts()) - {id}
    {
      rows := rows - {id};
    }
  }

  /** The table of one kind of child record: educations, certifications, skills
      or experiences. */
  class ChildRepository<K> {
    var rows: map<nat, Child<K>>
    var nextId: nat

    ghost predicate Valid()
      reads this, rows.Values`id
    {
      forall k {:trigger rows[k]} :: k in rows ==> rows[k].id == Some(k) && k < nextId
    }

    constructor ()
      ensures Valid() && rows == map[]
    {
      rows, nextId := map[], 0;
    }

    /** The ids of the rows that belong to `owner`. */
    function OwnedBy(owner: Employee): set<nat>
      reads this, rows.Values`employee
    {
      set k | k in rows && rows[k].employee == owner
    }

    /** The fields of the owner's rows, by id. */
    ghost function OwnedFields(owner: Employee): (m: map<nat, Fields>)
      reads this, rows.Values`employee, rows.Values`columns, rows.Values`version
      ensures m.Keys == OwnedBy(owner)
    {
      map k | k in OwnedBy(owner) :: Fields(rows[k].columns, rows[k].version)
    }

    /** Rows that were left alone keep the owner's fields. */
    twostate lemma FieldsKept(owner: Employee)
      requires unchanged(this) && unchanged(rows.Values)
      ensures OwnedFields(owner) == old(OwnedFields(owner))
    {
    }

    /** findByEmployeeEmployeeId: the owner's rows, in no particular order. */
    method FindByEmployee(owner: Employee) returns (found: seq<Child<K>>)
      requires Valid()
      ensures forall j :: 0 <= j < |found| ==>
                found[j].id.Some? && found[j].id.value in OwnedBy(owner) && rows[found[j].id.value] == found[j]
      ensures forall k :: k in OwnedBy(owner) ==> rows[k] in found
      ensures forall i, j :: 0 <= i < j < |found| ==> found[i].id != found[j].id
      ensures IdsOf(found) == OwnedBy(owner)
    {
      var owned := OwnedBy(owner);
      var left := owned;
      found := [];
      while left != {}
        invariant left <= owned
        invariant forall j :: 0 <= j < |found| ==>
                    found[j].id.Some? && found[j].id.value in owned - left && rows[found[j].id.value] == found[j]
        invariant forall k :: k in owned - left ==> rows[k] in found
        invariant forall i, j :: 0 <= i < j < |found| ==> found[i].id != found[j].id
        decreases left
      {
        var k :| k in left;
        found := found + [rows[k]];
        left := left - {k};
      }
      assert IdsOf(found) == owned by {
        forall k | k in owned ensures k in IdsOf(found) {
          assert rows[k] in found;
        }
      }
    }

    /** Inserts a new record under the next id. */
    method Insert(c: Child<K>) returns (id: nat)
      requires Valid() && c.id.None?
      modifies this, c`id
      ensures Valid()
      ensures id == old(nextId) && id !in old(rows) && c.id == Some(id) && nextId == id + 1
      ensures rows == old(rows)[id := c]
    {
      id := nextId;
      c.id := Some(id);
      rows := rows[id := c];
      nextId := nextId + 1;
    }

    /** Cascading persist when the owning employee is saved: every record of the
        list that has no id yet is inserted; the others are rows already. */
    method PersistNew(list: seq<Child<K>>)
      requires Valid()
      requires forall c :: c in list && c.id.Some? ==> c.id.value in rows && rows[c.id.value] == c
      modifies this, (set c | c in list)`id
      ensures Valid()
      ensures forall k :: k in old(rows) ==> k in rows && rows[k] == old(rows)[k]
      ensures forall c :: c in list ==> c.id.Some? && c.id.value in rows && rows[c.id.value] == c
      ensures forall c :: c in list && old(c.id).Some? ==> c.id == old(c.id)
      ensures forall k :: k in rows && k !in old(rows) ==> rows[k] in list && k >= old(nextId)
    {
      for i := 0 to |list|
        invariant Valid() && nextId >= old(nextId)
        invariant forall k :: k in old(rows) ==> k in rows && rows[k] == old(rows)[k]
        invariant forall c :: c in list && c.id.Some? ==> c.id.value in rows && rows[c.id.value] == c
        invariant forall j :: 0 <= j < i ==> list[j].id.Some?
        invariant forall c :: c in list && old(c.id).Some? ==> c.id == old(c.id)
        invariant forall k :: k in rows && k !in old(rows) ==> rows[k] in list && k >= old(nextId)
      {
        if list[i].id.None? {
          var _ := Insert(list[i]);
        }
      }
    }

    /** deleteAll: removes the rows of the given records. */
    method DeleteAll(victims: seq<Child<K>>)
      requires Valid()
      modifies this`rows
      ensures Valid()
      ensures rows == old(rows) - IdsOf(victims)
    {
      rows := rows - IdsOf(victims);
    }

    /** The ids of the rows whose employee column holds employeeId. */
    function OfEmployeeId(employeeId: nat): (ids: set<nat>)
      reads this, rows.Values`employee
      reads (set k | k in rows && rows[k].employee != null :: rows[k].employee)`id
      ensures forall k :: k in ids <==> k in rows && rows[k].employee != null && rows[k].employee.id == Some(employeeId)
    {
      set k | k in rows && rows[k].employee != null && rows[k].employee.id == Some(employeeId)
    }

    /** deleteByEmployeeEmployeeId */
    method DeleteByEmployeeId(employeeId: nat)
      requires Valid()
      modifies this`rows
      ensures Valid()
      ensures rows == old(rows) - old(OfEmployeeId(employeeId))
    {
      rows := rows - OfEmployeeId(employeeId);
    }

    /** The cascaded removal of an employee's records when the employee is removed. */
    method DeleteByEmployee(owner: Employee)
      requires Valid()
      modifies this`rows
      ensures Valid()
      ensures rows == old(rows) - old(OwnedBy(owner))
    {
      rows := rows - OwnedBy(owner);
    }
  }

  class DocumentRepository {
    var rows: map<nat, Document>
    var nextId: nat

    ghost predicate Valid()
      reads this, rows.Values`id
    {
      forall k {:trigger rows[k]} :: k in rows ==> rows[k].id == Some(k) && k < nextId
    }

    constructor ()
      ensures Valid() && rows == map[]
    {
      rows, nextId := map[], 0;
    }

    function OwnedBy(owner: Employee): set<nat>
      reads this, rows.Values`employee
    {
      set k | k in rows && rows[k].employee == owner
    }

    /** The ids of the documents whose employee column holds employeeId. */
    function OfEmployeeId(employeeId: nat): (ids: set<nat>)
      reads this, rows.Values`employee
      reads (set k | k in rows && rows[k].employee != null :: rows[k].employee)`id
      ensures forall k :: k in ids <==> k in rows && rows[k].employee != null && rows[k].employee.id == Some(employeeId)
    {
      set k | k in rows && rows[k].employee != null && rows[k].employee.id == Some(employeeId)
    }

    /** findByEmployeeEmployeeId: the owner's documents, in no particular order. */
    method FindByEmployee(owner: Employee) returns (found: seq<Document>)
      requires Valid()
      ensures forall j :: 0 <= j < |found| ==>
                found[j].id.Some? && found[j].id.value in OwnedBy(owner) && rows[found[j].id.value] == found[j]
      ensures forall k :: k in OwnedBy(owner) ==> rows[k] in found
      ensures forall i, j :: 0 <= i < j < |found| ==> found[i] != found[j]
    {
      var owned := OwnedBy(owner);
      var left := owned;
      found := [];
      while left != {}
        invariant left <= owned
        invariant forall j :: 0 <= j < |found| ==>
                    found[j].id.Some? && found[j].id.value in owned - left && rows[found[j].id.value] == found[j]
        invariant forall k :: k in owned - left ==> rows[k] in found
        invariant forall i, j :: 0 <= i < j < |found| ==> found[i] != found[j]
        decreases left
      {
        var k :| k in left;
        found := found + [rows[k]];
        left := left - {k};
      }
    }

    /** save of a new document: it gets the next id, and a null version
        becomes 0, as the persistence layer seeds a @Version column. */
    method Insert(d: Document) returns (id: nat)
      requires Valid() && d.id.None?
      modifies this, d`id, d`version
      ensures Valid()
      ensures id == old(nextId) && id !in old(rows) && d.id == Some(id) && nextId == id + 1
      ensures rows == old(rows)[id := d]
      ensures old(d.version).None? ==> d.version == Some(0)
      ensures old(d.version).Some? ==> d.version == old(d.version)
    {
      id := nextId;
      d.id := Some(id);
      if d.version.None? {
        d.version := Some(0);
      }
      rows := rows[id := d];
      nextId := nextId + 1;
    }

    /** Cascading persist of an employee's new documents. */
    method PersistNew(list: seq<Document>)
      requires Valid()
      requires forall d :: d in list && d.id.Some? ==> d.id.value in rows && rows[d.id.value] == d
      modifies this, (set d | d in list)`id, (set d | d in list)`version
      ensures Valid()
      ensures forall k :: k in old(rows) ==> k in rows && rows[k] == old(rows)[k]
      ensures forall d :: d in list ==> d.id.Some? && d.id.value in rows && rows[d.id.value] == d
      ensures forall d :: d in list && old(d.version).Some? ==> d.version == old(d.version)
      ensures forall d :: d in list && old(d.id).None? && old(d.version).None? ==> d.version == Some(0)
      ensures forall k :: k in rows && k !in old(rows) ==> rows[k] in list
    {
      for i := 0 to |list|
        invariant Valid()
        invariant forall k :: k in old(rows) ==> k in rows && rows[k] == old(rows)[k]
        invariant forall d :: d in list && d.id.Some? ==> d.id.value in rows && rows[d.id.value] == d
        invariant forall j :: 0 <= j < i ==> list[j].id.Some?
        invariant forall k :: k in rows && k !in old(rows) ==> rows[k] in list
        invariant forall d :: d in list && old(d.version).Some? ==> d.version == old(d.version)
        invariant forall d :: d in list && d.id.None? ==> d.version == old(d.version)
        invariant forall d :: d in list && old(d.id).None? && old(d.version).None? && d.id.Some? ==> d.version == Some(0)
      {
        if list[i].id.None? {
          var _ := Insert(list[i]);
        }
      }
    }

    /** findAllById followed by deleteAll: ids without a row are skipped. */
    method DeleteAllById(ids: seq<nat>)
      requires Valid()
      modifies this`rows
      ensures Valid()
      ensures rows == old(rows) - set k | k in ids
    {
      rows := rows - set k | k in ids;
    }

    /** delete of a stored document. */
    method Delete(id: nat)
      requires Valid()
      modifies this`rows
      ensures Valid()
      ensures rows == old(rows) - {id}
    {
      rows := rows - {id};
    }

    /** deleteByEmployeeEmployeeId */
    method DeleteByEmployeeId(employeeId: nat)
      requires Valid()
      modifies this`rows
      ensures Valid()
      ensures rows == old(rows) - old(OfEmployeeId(employeeId))
    {
      rows := rows - OfEmployeeId(employeeId);
    }
  }

  class ProfilePhotoRepository {
    var rows: map<nat, ProfilePhoto>
    var nextId: nat

    ghost predicate Valid()
      reads this, rows.Values`id
    {
      forall k {:trigger rows[k]} :: k in rows ==> rows[k].id == Some(k) && k < nextId
    }

    constructor ()
      ensures Valid() && rows == map[]
    {
      rows, nextId := map[], 0;
    }

    /** The ids of the photos whose employee column holds employeeId. */
    function OfEmployeeId(employeeId: nat): (ids: set<nat>)
      reads this, rows.Values`employee
      reads (set k | k in rows && rows[k].employee != null :: rows[k].employee)`id
      ensures forall k :: k in ids <==> k in rows && rows[k].employee != null && rows[k].employee.id == Some(employeeId)
    {
      set k | k in rows && rows[k].employee != null && rows[k].employee.id == Some(employeeId)
    }

    /** The ids of the photos that belong to `owner`. */
    function OwnedBy(owner: Employee): set<nat>
      reads this, rows.Values`employee
    {
      set k | k in rows && rows[k].employee == owner
    }

    /** The cascaded removal of an employee's photo when the employee is removed. */
    method DeleteByEmployee(owner: Employee)
      requires Valid()
      modifies this`rows
      ensures Valid()
      ensures rows == old(rows) - old(OwnedBy(owner))
    {
      rows := rows - OwnedBy(owner);
    }

    /** No employee has two photos. */
    ghost predicate AtMostOnePerEmployee()
      reads this, rows.Values`employee
    {
      forall a, b :: a in rows && b in rows && rows[a].employee != null && rows[a].employee == rows[b].employee ==> a == b
    }

    method Insert(p: ProfilePhoto) returns (id: nat)
      requires Valid() && p.id.None?
      modifies this, p`id
      ensures Valid()
      ensures id == old(nextId) && id !in old(rows) && p.id == Some(id) && nextId == id + 1
      ensures rows == old(rows)[id := p]
    {
      id := nextId;
      p.id := Some(id);
      rows := rows[id := p];
      nextId := nextId + 1;
    }

    method Delete(id: nat)
      requires Valid()
      modifies this`rows
      ensures Valid()
      ensures rows == old(rows) - {id}
    {
      rows := rows - {id};
    }

    /** The bulk delete of an employee's photos followed by the save of the new
        one: afterwards the new photo is that employee's only one. */
    method Replace(employeeId: nat, p: ProfilePhoto) returns (id: nat)
      requires Valid() && AtMostOnePerEmployee() && p.id.None?
      requires p.employee != null && p.employee.id == Some(employeeId)
      modifies this, p`id
      ensures Valid() && AtMostOnePerEmployee()
      ensures id !in old(rows) && p.id == Some(id)
      ensures rows == (old(rows) - old(OfEmployeeId(employeeId)))[id := p]
      ensures OfEmployeeId(employeeId) == {id}
    {
      DeleteByEmployeeId(employeeId);
      ghost var kept := rows;
      assert forall k :: k in kept ==> kept[k].employee == null || kept[k].employee.id != Some(employeeId);
      id := Insert(p);
      assert forall k :: k in rows && k != id ==> k in kept && rows[k] == kept[k];
    }

    /** The bulk `DELETE ... WHERE p.employee.employeeId = :employeeId`. */
    method DeleteByEmployeeId(employeeId: nat)
      requires Valid()
      modifies this`rows
      ensures Valid()
      ensures rows == old(rows) - old(OfEmployeeId(employeeId))
    {
      rows := rows - OfEmployeeId(employeeId);
    }
  }

  class LeaveRepository {
    var rows: map<nat, Leave>
    var nextId: nat

    ghost predicate Valid()
      reads this, rows.Values`id
    {
      forall k {:trigger rows[k]} :: k in rows ==> rows[k].id == Some(k) && k < nextId
    }

    constructor ()
      ensures Valid() && rows == map[]
    {
      rows, nextId := map[], 0;
    }

    /** The columns the leave queries look at, row by row; a leave's employee
        column holds its employee's id. */
    function Rows(): (t: LeaveRows)
      reads this, rows.Values`employee, rows.Values`status, rows.Values`startDate, rows.Values`endDate
      reads (set k | k in rows && rows[k].employee != null :: rows[k].employee)`id
      ensures t.Keys == rows.Keys
    {
      map k | k in rows ::
        LeaveRow(if rows[k].employee == null then None else rows[k].employee.id,
                 rows[k].status, rows[k].startDate, rows[k].endDate)
    }

    /** save() of a new leave; the queries then see one more row. */
    method Insert(l: Leave) returns (id: nat)
      requires Valid() && l.id.None?
      modifies this, l`id
      ensures Valid()
      ensures id == old(nextId) && id !in old(rows) && l.id == Some(id) && nextId == id + 1
      ensures rows == old(rows)[id := l]
      ensures Rows() == old(Rows())[id := LeaveRow(if l.employee == null then None else l.employee.id,
                                                   l.status, l.startDate, l.endDate)]
    {
      ghost var before := Rows();
      ghost var row := LeaveRow(if l.employee == null then None else l.employee.id, l.status, l.startDate, l.endDate);
      id := nextId;
      l.id := Some(id);
      rows := rows[id := l];
      nextId := nextId + 1;
      forall k | k in rows
        ensures Rows()[k] == before[id := row][k]
      {
        if k != id {
          var r := rows[k];
          assert r.employee == old(r.employee) && r.status == old(r.status);
        }
      }
    }
  }

  class TeamRepository {
    var rows: map<nat, Team>
    var nextId: nat

    ghost predicate Valid()
      reads this, rows.Values`id
    {
      forall k {:trigger rows[k]} :: k in rows ==> rows[k].id == Some(k) && k < nextId
    }

    constructor ()
      ensures Valid() && rows == map[]
    {
      rows, nextId := map[], 0;
    }

    /** findByProjectId, which is also the project's `teams` collection. */
    function OfProject(project: Project): set<nat>
      reads this, rows.Values`project
    {
      set k | k in rows && rows[k].project == project
    }

    /** save() of a new team, which joins its project's teams. */
    method Insert(t: Team) returns (id: nat)
      requires Valid() && t.id.None?
      modifies this, t`id
      ensures Valid()
      ensures id == old(nextId) && id !in old(rows) && t.id == Some(id) && nextId == id + 1
      ensures rows == old(rows)[id := t]
      ensures t.project != null ==> OfProject(t.project) == old(OfProject(t.project)) + {id}
    {
      id := nextId;
      t.id := Some(id);
      rows := rows[id := t];
      nextId := nextId + 1;
    }

    /** delete(team) of a stored team. */
    method Delete(id: nat)
      requires Valid()
      modifies this`rows
      ensures Valid()
      ensures rows == old(rows) - {id}
    {
      rows := rows - {id};
    }

    /** The removal of a project's teams that cascades from deleting the project. */
    method DeleteOfProject(project: Project)
      requires Valid()
      modifies this`rows
      ensures Valid()
      ensures rows == old(rows) - old(OfProject(project))
      ensures OfProject(project) == {}
    {
      rows := rows - OfProject(project);
    }
  }

  class ProjectRepository {
    var rows: map<nat, Project>
    var nextId: nat

    ghost predicate Valid()
      reads this, rows.Values`id
    {
      forall k {:trigger rows[k]} :: k in rows ==> rows[k].id == Some(k) && k < nextId
    }

    constructor ()
      ensures Valid() && rows == map[]
    {
      rows, nextId := map[], 0;
    }

    method Insert(p: Project) returns (id: nat)
      requires Valid() && p.id.None?
      modifies this, p`id
      ensures Valid()
      ensures id == old(nextId) && id !in old(rows) && p.id == Some(id) && nextId == id + 1
      ensures rows == old(rows)[id := p]
    {
      id := nextId;
      p.id := Some(id);
      rows := rows[id := p];
      nextId := nextId + 1;
    }

    method Delete(id: nat)
      requires Valid()
      modifies this`rows
      ensures Valid()
      ensures rows == old(rows) - {id}
    {
      rows := rows - {id};
    }
  }
}
