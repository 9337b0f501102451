/**
 * The todo store: the record type `Todo` and the in-memory `TodoService`,
 * whose private `List<Todo>` is kept as a sequence in insertion order.
 * Ids are not unique: lookup is first-match, deletion removes every match.
 */
module Todos {
  import opened Wrappers

  /** A todo record: id, name, due time and completion flag. The due time is
      a tick count of the UTC clock. */
  datatype Todo = Todo(id: int, name: string, dueTime: int, isCompleted: bool)

  /** The first record with the given id, in insertion order (`FirstOrDefault`). */
  function FirstById(s: seq<Todo>, id: int): (r: Option<Todo>)
    ensures r.Some? ==> r.value in s && r.value.id == id
  {
    if s == [] then None
    else if s[0].id == id then Some(s[0])
    else FirstById(s[1..], id)
  }

  /** The records whose id differs from the given one, in order (`RemoveAll`). */
  function RemoveById(s: seq<Todo>, id: int): (r: seq<Todo>)
    ensures |r| <= |s|
    ensures forall t :: t in r ==> t in s && t.id != id
  {
    if s == [] then []
    else if s[0].id == id then RemoveById(s[1..], id)
    else [s[0]] + RemoveById(s[1..], id)
  }

  predicate HasId(s: seq<Todo>, id: int)
  {
    exists i :: 0 <= i < |s| && s[i].id == id
  }

  /** i is the smallest index whose record has the given id. */
  predicate IsFirstMatch(s: seq<Todo>, id: int, i: int)
  {
    0 <= i < |s| && s[i].id == id && forall j :: 0 <= j < i ==> s[j].id != id
  }

  /** The ascending indices of the records whose id differs from the given one. */
  ghost function KeptIndices(s: seq<Todo>, id: int): seq<int>
  {
    if s == [] then []
    else
      var n := |s| - 1;
      KeptIndices(s[..n], id) + (if s[n].id != id then [n] else [])
  }

  /** Lookup finds nothing exactly when no record has the id, and otherwise
      the record at the first matching index. */
  lemma {:induction false} FirstByIdIsFirstMatch(s: seq<Todo>, id: int)
    ensures FirstById(s, id).None? <==> !HasId(s, id)
    ensures FirstById(s, id).Some? ==>
              exists i :: IsFirstMatch(s, id, i) && s[i] == FirstById(s, id).value
  {
    if s != [] {
      FirstByIdIsFirstMatch(s[1..], id);
      if s[0].id == id {
        assert IsFirstMatch(s, id, 0);
      } else {
        if HasId(s, id) {
          var i :| 0 <= i < |s| && s[i].id == id;
          assert s[1..][i - 1].id == id;
        }
        if HasId(s[1..], id) {
          var i :| 0 <= i < |s[1..]| && s[1..][i].id == id;
          assert s[i + 1].id == id;
        }
        if FirstById(s[1..], id).Some? {
          var i :| IsFirstMatch(s[1..], id, i) && s[1..][i] == FirstById(s[1..], id).value;
          assert IsFirstMatch(s, id, i + 1);
        }
      }
    }
  }

  /** Removing distributes over concatenation. */
  lemma {:induction false} RemoveByIdAppend(a: seq<Todo>, b: seq<Todo>, id: int)
    ensures RemoveById(a + b, id) == RemoveById(a, id) + RemoveById(b, id)
  {
    if a != [] {
      assert (a + b)[0] == a[0];
      assert (a + b)[1..] == a[1..] + b;
      RemoveByIdAppend(a[1..], b, id);
    } else {
      assert a + b == b;
    }
  }

  /** Removing from the end: the recursive shape KeptIndices uses. */
  lemma RemoveByIdSnoc(s: seq<Todo>, id: int)
    requires s != []
    ensures RemoveById(s, id) ==
            RemoveById(s[..|s| - 1], id) + (if s[|s| - 1].id != id then [s[|s| - 1]] else [])
  {
    var n := |s| - 1;
    assert s == s[..n] + [s[n]];
    RemoveByIdAppend(s[..n], [s[n]], id);
    assert RemoveById([s[n]], id) == (if s[n].id != id then [s[n]] else []) by {
      assert [s[n]][1..] == [];
    }
  }

  /** The kept indices are ascending positions of records with another id. */
  lemma {:induction false} KeptIndicesAscending(s: seq<Todo>, id: int)
    ensures forall m :: 0 <= m < |KeptIndices(s, id)| ==>
              0 <= KeptIndices(s, id)[m] < |s| && s[KeptIndices(s, id)[m]].id != id
    ensures forall m, l :: 0 <= m < l < |KeptIndices(s, id)| ==>
              KeptIndices(s, id)[m] < KeptIndices(s, id)[l]
  {
    if s != [] {
      var n := |s| - 1;
      var p := s[..n];
      KeptIndicesAscending(p, id);
      var kp := KeptIndices(p, id);
      var k := KeptIndices(s, id);
      assert k == kp + (if s[n].id != id then [n] else []);
      forall m | 0 <= m < |k|
        ensures 0 <= k[m] < |s| && s[k[m]].id != id
      {
        if m < |kp| {
          assert k[m] == kp[m];
          assert p[kp[m]] == s[kp[m]];
        }
      }
    }
  }

  /** Every record with another id has its index kept. */
  lemma {:induction false} KeptIndicesComplete(s: seq<Todo>, id: int)
    ensures forall i :: 0 <= i < |s| && s[i].id != id ==> i in KeptIndices(s, id)
  {
    if s != [] {
      var n := |s| - 1;
      var p := s[..n];
      KeptIndicesComplete(p, id);
      forall i | 0 <= i < |s| && s[i].id != id
        ensures i in KeptIndices(s, id)
      {
        if i < n {
          assert p[i] == s[i];
          assert i in KeptIndices(p, id);
        }
      }
    }
  }

  /** The result of RemoveById read position by position. */
  lemma {:induction false} RemoveByIdAt(s: seq<Todo>, id: int)
    ensures var r, k := RemoveById(s, id), KeptIndices(s, id);
      |r| == |k| && forall m :: 0 <= m < |k| ==> 0 <= k[m] < |s| && r[m] == s[k[m]]
  {
    if s != [] {
      var n := |s| - 1;
      var p := s[..n];
      RemoveByIdAt(p, id);
      RemoveByIdSnoc(s, id);
      var rp, kp := RemoveById(p, id), KeptIndices(p, id);
      assert forall m :: 0 <= m < |kp| ==> p[kp[m]] == s[kp[m]];
    }
  }

  /**
   * RemoveAll keeps exactly the records with a different id, in their
   * original relative order: the result is s read at the ascending indices
   * of those records, and every such index is among them.
   */
  lemma RemoveByIdKeepsOthersInOrder(s: seq<Todo>, id: int)
    ensures var r, k := RemoveById(s, id), KeptIndices(s, id);
      |r| == |k| &&
      (forall m :: 0 <= m < |k| ==> 0 <= k[m] < |s| && s[k[m]].id != id && r[m] == s[k[m]]) &&
      (forall m, l :: 0 <= m < l < |k| ==> k[m] < k[l]) &&
      (forall i :: 0 <= i < |s| && s[i].id != id ==> i in k)
  {
    KeptIndicesAscending(s, id);
    KeptIndicesComplete(s, id);
    RemoveByIdAt(s, id);
  }

  /** After removal no record has the id; a corollary of RemoveById's own
      contract. */
  lemma RemoveByIdRemovesAll(s: seq<Todo>, id: int)
    ensures !HasId(RemoveById(s, id), id)
    ensures |RemoveById(s, id)| <= |s|
  {
  }

  /** The list is left unchanged exactly when nothing matches. */
  lemma {:induction false} RemoveByIdUnchangedIff(s: seq<Todo>, id: int)
    ensures RemoveById(s, id) == s <==> !HasId(s, id)
  {
    if s != [] {
      RemoveByIdUnchangedIff(s[1..], id);
      RemoveByIdRemovesAll(s[1..], id);
      if s[0].id == id {
        assert HasId(s, id);
      } else {
        if HasId(s, id) {
          var i :| 0 <= i < |s| && s[i].id == id;
          assert s[1..][i - 1].id == id;
        }
        if HasId(s[1..], id) {
          var i :| 0 <= i < |s[1..]| && s[1..][i].id == id;
          assert s[i + 1].id == id;
        }
        assert s == [s[0]] + s[1..];
      }
    }
  }

  /** Deleting the same id twice is the same as deleting it once. */
  lemma {:induction false} RemoveByIdIdempotent(s: seq<Todo>, id: int)
    ensures RemoveById(RemoveById(s, id), id) == RemoveById(s, id)
  {
    RemoveByIdRemovesAll(s, id);
    RemoveByIdUnchangedIff(RemoveById(s, id), id);
  }

  /**
   * `TodoService`: the single owner of the todo records. `todos` is the
   * private list, in insertion order.
   */
  class TodoService {
    var todos: seq<Todo>

    constructor ()
      ensures todos == []
    {
      todos := [];
    }

    /** `GetTodoById`: the record at the smallest index with that id, or
        None exactly when no record has it. */
    function GetTodoById(id: int): (r: Option<Todo>)
      reads this
      ensures r.None? <==> !HasId(todos, id)
      ensures r.Some? ==> exists i :: IsFirstMatch(todos, id, i) && todos[i] == r.value
    {
      FirstByIdIsFirstMatch(todos, id);
      FirstById(todos, id)
    }

    /** `GetTodos`: every record, in insertion order. */
    function GetTodos(): (r: seq<Todo>)
      reads this
      ensures r == todos
    {
      todos
    }

    /** `DeleteTodoById`: removes every record with that id and keeps the
        others in their order; nothing changes when no record matches. */
    method DeleteTodoById(id: int)
      modifies this
      ensures todos == RemoveById(old(todos), id)
      ensures !HasId(todos, id)
      ensures !HasId(old(todos), id) ==> todos == old(todos)
    {
      RemoveByIdRemovesAll(todos, id);
      RemoveByIdUnchangedIff(todos, id);
      todos := RemoveById(todos, id);
    }

    /** `AddTodo`: appends at the end, with no uniqueness check, and returns
        its argument. */
    method AddTodo(todo: Todo) returns (r: Todo)
      modifies this
      ensures todos == old(todos) + [todo]
      ensures r == todo
    {
      todos := todos + [todo];
      r := todo;
    }
  }
}
