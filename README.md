# Todo service and helper endpoints, modelled in Dafny

The program is a small ASP.NET minimal-API service in a single file,
`test-Program.cs`. It has one stateful resource, an in-memory todo store
(`TodoService`) behind four endpoints, and four stateless endpoints: text
statistics, case-insensitive word search, grade lookup and factorial.

The model follows that structure:

- `Todos` holds the `Todo` record and the pure list functions `FirstById`
  (what `FirstOrDefault(t => t.Id == id)` returns) and `RemoveById` (what
  `RemoveAll(t => t.Id == id)` leaves). It also holds the class `TodoService`,
  whose field `todos: seq<Todo>` is the private `List<Todo>` in insertion order.
  Ids are not unique. Lookup returns the first match. Delete removes every match.
- `Validation` holds the two endpoint filters as pure functions. Each returns a
  field -> messages map, and the map is empty when the request may proceed.
- `TextStats`, `TextSearch` and `Grades` hold the pure helpers.
- `Factorial` holds the `while` loop of `CalculateFactorial` over a
  two's-complement accumulator. `MachineInt` writes out C#'s unchecked
  wrap-around.
- `Endpoints` holds each handler together with its filter. Each one produces a
  `Response` value and, for the todo endpoints, a new store state. The method
  `Endpoints.DuplicateIdScenario` is a worked client of these contracts: two
  todos share an id, lookup answers the first, one delete removes both, a
  second delete changes nothing, and a todo that is completed and overdue is
  rejected on both fields.

Conventions:
- A `DateTime` is an integer tick count.
- The clock `DateTime.UtcNow` is the parameter `now`.
- A query-string value is `Option<int>`, already parsed. `None` means missing or
  empty.
- A C# `null` string counts the same as an empty one, as `string.IsNullOrEmpty` does.

Two behaviours of the code are easy to misread, and the model keeps them as written:
- `GetGrade` gives F to every score below 70, negative ones included. Only a
  score above 100 has no grade, so only that case is "not found".
- Words are separated only by the space character `' '`. Tabs and newlines are
  not separators.

## Model

| member | source | states |
|---|---|---|
| `Todos.FirstById` | test-Program.cs:238 | a record it returns is stored in the list and carries the requested id |
| `Todos.RemoveById` | test-Program.cs:248 | the result is never longer than the input, and every record in it comes from the input and has another id |
| `Todos.FirstByIdIsFirstMatch` | test-Program.cs:236-239 | first-match lookup finds nothing exactly when no record has the id; otherwise it returns the record at the smallest index with that id |
| `Todos.RemoveByIdKeepsOthersInOrder` | test-Program.cs:246-249 | RemoveAll's result is the input read at the ascending indices of the records with another id; every such record is kept, in its original relative order |
| `Todos.RemoveByIdRemovesAll` | test-Program.cs:246-249 | after RemoveAll no record has the id, and the list never grows |
| `Todos.RemoveByIdUnchangedIff` | test-Program.cs:246-249 | RemoveAll leaves the list unchanged if and only if no record has the id |
| `Todos.RemoveByIdIdempotent` | test-Program.cs:246-249 | deleting an id twice gives the same list as deleting it once |
| `Todos.RemoveByIdAppend` | test-Program.cs:248 | removing by id distributes over concatenation of lists |
| `Todos.TodoService.constructor` | test-Program.cs:234 | a new service starts with an empty list |
| `Todos.TodoService.GetTodoById` | test-Program.cs:236-239 | None exactly when no stored record has the id; otherwise the stored record at the first index with that id |
| `Todos.TodoService.GetTodos` | test-Program.cs:241-244 | returns the whole list in insertion order |
| `Todos.TodoService.DeleteTodoById` | test-Program.cs:246-249 | the new list is the old one with every record of that id removed; no record of that id is left; nothing changes when none matched |
| `Todos.TodoService.AddTodo` | test-Program.cs:251-255 | the new list is the old list with the argument appended at the end, with no uniqueness check; the argument is returned |
| `Validation.ValidateTodo` | test-Program.cs:137-158 | an Id entry iff Id < 1, an IsCompleted entry iff IsCompleted, a DueTime entry iff DueTime < now (strict); no other keys; each entry carries its message; the map is empty iff the todo is creatable |
| `Validation.ValidateSearch` | test-Program.cs:41-57 | a Word entry iff the word is empty, a Sentence entry iff the sentence is empty, with their messages; empty iff both are non-empty |
| `TextSearch.IndexFrom` | test-Program.cs:35 | the first case-insensitive match at or after a position, or -1 exactly when there is none from there on |
| `TextSearch.IndexOfIgnoreCase` | test-Program.cs:35 | the smallest index where the word matches ignoring case, or -1 exactly when it occurs nowhere |
| `TextSearch.Digits` | test-Program.cs:37 | the decimal digits of a natural number: non-empty, digits only, no leading zero (a string starting with '0' is exactly "0"), and they read back as the number |
| `TextSearch.IntToString` | test-Program.cs:37 | the decimal rendering the interpolation uses: a leading '-' exactly for negative numbers, then digits with no leading zero (digits starting with '0' are exactly "0"), and it parses back to the number |
| `TextSearch.SearchMessage` | test-Program.cs:35-37 | the reply starts with the word, then " is at ", ends with " index", and the text between is the decimal rendering of the first case-insensitive index, parsing back to it |
| `TextSearch.IndexExample` | test-Program.cs:35 | "Cat" occurs in "I have a cat" at index 9 |
| `TextSearch.SearchExample` | test-Program.cs:34-37 | the search reply for "Cat" in "I have a cat" is "Cat is at 9 index" |
| `TextStats.Split` | test-Program.cs:25 | splitting on ' ' always yields at least one piece |
| `TextStats.SplitPieces` | test-Program.cs:25 | splitting on ' ' yields one more piece than there are spaces, and no piece contains a space |
| `TextStats.JoinSplit` | test-Program.cs:25 | joining the pieces with ' ' gives back the text that was split |
| `TextStats.TotalCount` | test-Program.cs:24 | totalCount is the length of the text minus its number of ' ' characters |
| `TextStats.TotalWords` | test-Program.cs:25 | totalWords equals the independent count of positions where a run of non-space characters begins |
| `TextStats.TotalCountCountsNonSpaces` | test-Program.cs:24 | totalCount is the length minus the number of ' ' characters; the kept characters are the input's non-space characters, none of them a space |
| `TextStats.SplitCountsWordStarts` | test-Program.cs:25 | the non-empty split pieces are as many as the positions where a run of non-space characters begins |
| `TextStats.ExampleRuns` | test-Program.cs:25 | "a bb  ccc" has three runs of non-space characters |
| `TextStats.ExampleCounts` | test-Program.cs:24-25 | "a bb  ccc" has totalCount 6 and totalWords 3 |
| `TextStats.TabIsNotASeparator` | test-Program.cs:25 | "a\tb" is one word |
| `Grades.GetGrade` | test-Program.cs:185-207 | A exactly for 90..100, B for 80..89, C for 70..79, F for every score below 70 including negatives, null exactly above 100 |
| `Grades.GradeMonotone` | test-Program.cs:185-207 | up to 100 every score has a grade, and a higher score never gets a lower one |
| `MachineInt.WrapMul` | test-Program.cs:121 | wrapping after each multiplication equals wrapping the exact product once |
| `MachineInt.WrapId` | test-Program.cs:121 | a value already in range is not changed by wrapping |
| `Factorial.MachineFactorial` | test-Program.cs:110-126 | the loop returns num itself for num <= 0, and n! reduced to the accumulator's two's-complement range for num >= 1 |
| `Factorial.CalculateFactorial` | test-Program.cs:110-126 | on a 32-bit int: num for num <= 0, n! wrapped modulo 2^32 for num >= 1, and exactly n! for 1 <= num <= 12 |
| `Factorial.Factorial13Wraps` | test-Program.cs:110-126 | 13! = 6227020800, and the 32-bit loop returns 1932053504 instead |
| `Factorial.CalculateFactorialLong` | test-Program.cs:110-126 | the same loop on a 64-bit long is exactly n! for 1 <= num <= 20 |
| `Endpoints.GetCount` | test-Program.cs:12-27 | an empty text is a bad request; otherwise the count of non-space characters and the number of space-separated words |
| `Endpoints.Search` | test-Program.cs:31-60 | a validation problem iff the word or the sentence is empty, carrying exactly the search filter's map; when both are non-empty, always the OK reply `SearchMessage` builds, with the first case-insensitive index, or -1 when absent |
| `Endpoints.GetGradeResponse` | test-Program.cs:63-83 | a missing score is a bad request, a score above 100 is not found, any other score gets its grade |
| `Endpoints.GetFactorial` | test-Program.cs:86-107 | a missing num or one outside 1..19 is a bad request; otherwise n! wrapped to 32 bits, exact up to 12 |
| `Endpoints.GetFactorialLong` | test-Program.cs:86-107 | the same endpoint with a 64-bit accumulator answers exactly n! for all of 1..19 |
| `Endpoints.CreateTodo` | test-Program.cs:130-161 | a todo failing any rule yields the validation map and leaves the store unchanged; a valid one is appended exactly once and returned as created |
| `Endpoints.ListTodos` | test-Program.cs:164 | answers every stored record in insertion order |
| `Endpoints.GetTodo` | test-Program.cs:170-175 | a not-found result with no body exactly when no record has the id; otherwise the first record with it |
| `Endpoints.DeleteTodo` | test-Program.cs:177-181 | always no content; every record with the id is gone and the others are kept in order |

## Findings

| source | as written | input that shows it | evidently intended | confidence | as-written member | corrected member |
|---|---|---|---|---|---|---|
| test-Program.cs:91-96, 110-126 | the factorial endpoint admits 1..19, but `CalculateFactorial` multiplies in a 32-bit `int`, which wraps silently from 13 on | num = 13: the reply is 1932053504, while 13! = 6227020800 | the exact n! for every admitted num, for example with a 64-bit accumulator, where 19! fits | high, not executed | `Factorial.Factorial13Wraps` (with `Factorial.CalculateFactorial`, `Endpoints.GetFactorial`) | `Factorial.CalculateFactorialLong`, `Endpoints.GetFactorialLong` |

## Left out

- ASP.NET routing, dependency injection, endpoint-filter chaining and the
  construction of results are framework plumbing. Each is reduced to the
  `Response` it decides on.
- Reading query strings and `int.Parse` are left out. The model does not
  represent parse exceptions or non-numeric input; parameters arrive as
  `Option<int>` or as strings.
- `DateTime.UtcNow` is a clock read. It is the parameter `now`. `DateTime`
  kinds and time zones are not modelled, and only tick order is compared.
- `TextSearch.IndexOfIgnoreCase`: case folding covers only the ASCII letters.
  `StringComparison.OrdinalIgnoreCase` folds all of Unicode, which is a
  library call.
- Strings are sequences of Unicode scalar values, one `char` each. C# strings
  are sequences of UTF-16 code units. `TextStats.TotalCount` and
  `TextSearch.IndexOfIgnoreCase` therefore count characters outside the Basic
  Multilingual Plane (above U+FFFF) once, where C# counts them twice. The model's
  totalCount and search index differ from C# on such text.
- `TextSearch.IntToString` always writes an ASCII '-' for a negative index.
  The interpolation formats with the current culture, and under some cultures
  (for example sv-SE with ICU) the minus sign of the -1 reply is U+2212. Only
  the invariant-culture rendering is modelled.
- The factorial endpoint has a not-found branch that fires when the result
  formats as an empty string. It can never fire, so it is not modelled.
- `Todos.TodoService.GetTodos` returns a snapshot of the list. The C# method
  returns the live `List<Todo>`, and the model does not capture a caller
  mutating the store through that reference.
- `Validation.ValidateTodo` and `Validation.ValidateSearch` return a map,
  which has no order. The insertion order of the C# `Dictionary`, which decides
  the order of fields in the validation-problem body, is not modelled.
- Todo ids are C# `int`s. The model uses unbounded integers for them because
  the store does no arithmetic on ids.
- The store has no locking. Concurrent requests on the shared list are not
  modelled. Each operation is one atomic step.
- The commented-out earlier version of the program at the end of the file is
  dead code and not modelled. Its lookup uses `SingleOrDefault`, not first-match.
