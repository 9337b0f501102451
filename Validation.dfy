/**
 * The two endpoint filters, each a decision that collects every failing
 * field into a field -> messages map (`Dictionary<string, string[]>`).
 * An empty map lets the request through to its handler.
 */
module Validation {
  import opened Todos

  type Errors = map<string, seq<string>>

  const IdField := "Id"
  const IsCompletedField := "IsCompleted"
  const DueTimeField := "DueTime"
  const IdMessage := "Id cannot be less than 1"
  const IsCompletedMessage := "todo can not be created with status isCompleted to be true"
  const DueTimeMessage := "due date cannot be set in the past"

  const WordField := "Word"
  const SentenceField := "Sentence"
  const WordMessage := "Word cannot be empty"
  const SentenceMessage := "Sentence cannot be empty"

  /** A todo that may be created at time now. */
  predicate Creatable(t: Todo, now: int)
  {
    t.id >= 1 && !t.isCompleted && now <= t.dueTime
  }

  /**
   * The create-todo filter: three independent rules, each adding its own
   * entry, so that every failing field is reported together. The due-time
   * rule is strict: a todo due exactly now passes.
   */
  function ValidateTodo(t: Todo, now: int): (errors: Errors)
    ensures IdField in errors <==> t.id < 1
    ensures IsCompletedField in errors <==> t.isCompleted
    ensures DueTimeField in errors <==> t.dueTime < now
    ensures errors.Keys <= {IdField, IsCompletedField, DueTimeField}
    ensures forall f :: f in errors ==> errors[f] != []
    ensures IdField in errors ==> errors[IdField] == [IdMessage]
    ensures IsCompletedField in errors ==> errors[IsCompletedField] == [IsCompletedMessage]
    ensures DueTimeField in errors ==> errors[DueTimeField] == [DueTimeMessage]
    ensures errors == map[] <==> Creatable(t, now)
  {
    var e0: Errors := map[];
    var e1 := if t.id < 1 then e0[IdField := [IdMessage]] else e0;
    var e2 := if t.isCompleted then e1[IsCompletedField := [IsCompletedMessage]] else e1;
    var e3 := if t.dueTime < now then e2[DueTimeField := [DueTimeMessage]] else e2;
    e3
  }

  /**
   * The search filter: an entry for an empty word and one for an empty
   * sentence; the handler runs only when both are non-empty. A null string
   * is not distinguished from an empty one (`string.IsNullOrEmpty`).
   */
  function ValidateSearch(word: string, sentence: string): (errors: Errors)
    ensures WordField in errors <==> word == []
    ensures SentenceField in errors <==> sentence == []
    ensures errors.Keys <= {WordField, SentenceField}
    ensures WordField in errors ==> errors[WordField] == [WordMessage]
    ensures SentenceField in errors ==> errors[SentenceField] == [SentenceMessage]
    ensures errors == map[] <==> word != [] && sentence != []
  {
    var e0: Errors := map[];
    if word == [] || sentence == [] then
      var e1 := if word == [] then e0[WordField := [WordMessage]] else e0;
      var e2 := if sentence == [] then e1[SentenceField := [SentenceMessage]] else e1;
      e2
    else
      e0
  }
}
