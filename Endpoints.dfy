/**
 * The request handlers with their endpoint filters, each reduced to the
 * decision it makes: which response it produces and, for the todo
 * endpoints, what happens to the store. Query-string values arrive already
 * parsed (None when missing or empty); the clock is the parameter now.
 */
module Endpoints {
  import opened Wrappers
  import opened MachineInt
  import opened Todos
  import opened Validation
  import opened TextStats
  import opened TextSearch
  import opened Grades
  import opened Factorial

  /** The results the handlers build (`Results.*`, `TypedResults.*`). */
  datatype Response =
    | BadRequest(message: string)
    | NotFound(reason: Option<string>)
    | ValidationProblem(errors: Errors)
    | OkCount(totalCount: int, totalWords: int)
    | OkMessage(message: string)
    | OkGrade(grade: string)
    | OkFactorial(factorial: int)
    | Created(location: string, todo: Todo)
    | OkTodo(todo: Todo)
    | OkTodos(todos: seq<Todo>)
    | NoContent

  const TextMissing := "Text parameter is missing."
  const ScoreMissing := "score canont be empty or null"
  const InvalidScore := "not a valid score"
  const NumRejected := "num canont be empty or null or negative or cannot be greater than 19"
  const CreatedLocation := "todo created "

  /** GET /get-count: a missing text is a bad request; otherwise the number
      of non-space characters and the number of space-separated words. */
  function GetCount(text: string): (r: Response)
    ensures text == [] ==> r == BadRequest(TextMissing)
    ensures text != [] ==> r == OkCount(|text| - multiset(text)[' '], WordStarts(text, true))
  {
    if text == [] then BadRequest(TextMissing)
    else
      OkCount(TotalCount(text), TotalWords(text))
  }

  /** POST /search with its filter: an empty word or sentence is a
      validation problem naming the empty fields; otherwise a message with
      the first case-insensitive index of the word, -1 when absent. */
  function Search(word: string, sentence: string): (r: Response)
    ensures word == [] || sentence == [] <==> r.ValidationProblem?
    ensures r.ValidationProblem? ==>
              r.errors == ValidateSearch(word, sentence) &&
              (WordField in r.errors <==> word == []) && (SentenceField in r.errors <==> sentence == [])
    ensures word != [] && sentence != [] ==> r == OkMessage(SearchMessage(word, sentence))
    ensures r.OkMessage? ==> exists index ::
              r.message == word + " is at " + IntToString(index) + " index" &&
              (index == -1 <==> forall k :: !MatchesAt(sentence, word, k)) &&
              (index >= 0 ==> MatchesAt(sentence, word, index) &&
                              forall k :: 0 <= k < index ==> !MatchesAt(sentence, word, k))
  {
    var errors := ValidateSearch(word, sentence);
    if errors != map[] then ValidationProblem(errors)
    else
      OkMessage(SearchMessage(word, sentence))
  }

  /** GET /get-grade: a missing score is a bad request, a score above 100 is
      not found, and every other score gets its grade. */
  function GetGradeResponse(score: Option<int>): (r: Response)
    ensures score.None? ==> r == BadRequest(ScoreMissing)
    ensures score.Some? && score.value > 100 ==> r == NotFound(Some(InvalidScore))
    ensures score.Some? && score.value <= 100 ==> r.OkGrade? && Some(r.grade) == GetGrade(score.value)
  {
    match score
    case None => BadRequest(ScoreMissing)
    case Some(s) =>
      var grade := GetGrade(s);
      if grade.None? then NotFound(Some(InvalidScore)) else OkGrade(grade.value)
  }

  /** GET /factorial as written: only 1..19 reaches CalculateFactorial, whose
      32-bit result is exact only up to 12. */
  method GetFactorial(num: Option<int>) returns (r: Response)
    requires num.Some? ==> IsInt32(num.value)
    ensures num.None? || num.value < 1 || num.value > 19 ==> r == BadRequest(NumRejected)
    ensures num.Some? && 1 <= num.value <= 19 ==> r == OkFactorial(Wrap32(Fact(num.value)))
    ensures num.Some? && 1 <= num.value <= 12 ==> r == OkFactorial(Fact(num.value))
  {
    if num.None? || num.value < 1 || num.value > 19 {
      return BadRequest(NumRejected);
    }
    var factorial := CalculateFactorial(num.value);
    r := OkFactorial(factorial);
  }

  /** GET /factorial with a 64-bit accumulator: exact for every admitted num. */
  method GetFactorialLong(num: Option<int>) returns (r: Response)
    requires num.Some? ==> IsInt32(num.value)
    ensures num.None? || num.value < 1 || num.value > 19 ==> r == BadRequest(NumRejected)
    ensures num.Some? && 1 <= num.value <= 19 ==> r == OkFactorial(Fact(num.value))
  {
    if num.None? || num.value < 1 || num.value > 19 {
      return BadRequest(NumRejected);
    }
    var factorial := CalculateFactorialLong(num.value);
    r := OkFactorial(factorial);
  }

  /** POST /todos with its filter: a todo failing any rule is a validation
      problem and the store is untouched; otherwise it is appended once. */
  method CreateTodo(service: TodoService, todo: Todo, now: int) returns (r: Response)
    modifies service
    ensures !Creatable(todo, now) ==>
              r == ValidationProblem(ValidateTodo(todo, now)) && service.todos == old(service.todos)
    ensures Creatable(todo, now) ==>
              r == Created(CreatedLocation, todo) && service.todos == old(service.todos) + [todo]
  {
    var errors := ValidateTodo(todo, now);
    if |errors| > 0 {
      return ValidationProblem(errors);
    }
    var added := service.AddTodo(todo);
    r := Created(CreatedLocation, todo);
  }

  /** GET /todos: every record in insertion order. */
  function ListTodos(service: TodoService): (r: Response)
    reads service
    ensures r == OkTodos(service.todos)
  {
    OkTodos(service.GetTodos())
  }

  /** GET /todos/{id}: not found exactly when no record has the id,
      otherwise the first record with it. */
  function GetTodo(service: TodoService, id: int): (r: Response)
    reads service
    ensures r.NotFound? <==> !HasId(service.todos, id)
    ensures r.NotFound? || r.OkTodo?
    ensures r.NotFound? ==> r == NotFound(None)
    ensures r.OkTodo? ==>
              exists i :: IsFirstMatch(service.todos, id, i) && service.todos[i] == r.todo
  {
    var todo := service.GetTodoById(id);
    if todo.None? then NotFound(None) else OkTodo(todo.value)
  }

  /** DELETE /todos/{id}: no content whether or not anything matched. */
  method DeleteTodo(service: TodoService, id: int) returns (r: Response)
    modifies service
    ensures r == NoContent
    ensures service.todos == RemoveById(old(service.todos), id)
    ensures !HasId(service.todos, id)
  {
    service.DeleteTodoById(id);
    r := NoContent;
  }

  /** Two todos sharing an id: lookup answers the first, delete removes both,
      and a second delete changes nothing. */
  method DuplicateIdScenario(now: int)
  {
    var service := new TodoService();
    var first := Todo(7, "first", now, false);
    var second := Todo(7, "second", now + 1, false);
    var r1 := CreateTodo(service, first, now);
    var r2 := CreateTodo(service, second, now);
    assert service.todos == [first, second];
    var found := GetTodo(service, 7);
    assert IsFirstMatch(service.todos, 7, 0);
    assert found == OkTodo(first);
    assert [first, second][1..] == [second] && [second][1..] == [];
    assert RemoveById([second], 7) == [];
    assert RemoveById([first, second], 7) == [];
    var gone := DeleteTodo(service, 7);
    assert service.todos == [];
    var again := DeleteTodo(service, 7);
    assert service.todos == [];
    var late := CreateTodo(service, Todo(8, "late", now - 1, true), now);
    assert late.ValidationProblem? && DueTimeField in late.errors && IsCompletedField in late.errors;
    assert service.todos == [];
  }
}
