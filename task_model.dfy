/**
 * The server's task schema: the fields of a task document, their defaults and their validators.
 * A document is built from the submitted fields (absent ones are `None`); the title setter trims.
 */
module TaskModel {
  import opened Wrappers
  import opened TaskTypes
  import Text
  import opened Schema

  const MaxTitleLength := 200

  /** The fields handed to the schema. */
  datatype TaskInput = TaskInput(userId: Option<string>, title: Option<string>, status: Option<string>, priority: Option<string>)

  /** A stored task. Timestamps are milliseconds supplied by the store. */
  datatype TaskDoc = TaskDoc(id: string, userId: string, title: string, status: Status, priority: Priority,
                             createdAt: int, updatedAt: int)

  /** The title after the setter: trimmed when present. */
  function CastTitle(title: Option<string>): Option<string> {
    if title.Some? then Some(Text.Trim(title.value)) else None
  }

  /** The title's first failing validator: required (absent or empty after trimming), then the maximum length. */
  function TitleError(title: Option<string>): (r: Option<FieldError>)
    ensures r.None? <==> title.Some? && 1 <= |Text.Trim(title.value)| <= MaxTitleLength
  {
    var t := CastTitle(title);
    if t.None? || t.value == "" then Some(FieldError("title", "Task title is required"))
    else if |t.value| > MaxTitleLength then Some(FieldError("title", "Task title cannot exceed 200 characters"))
    else None
  }

  /** The message of the enumeration validator. */
  function EnumMessage(value: string, path: string): string {
    "`" + value + "` is not a valid enum value for path `" + path + "`."
  }

  /** The errors of every failing field, in schema order: userId, title, status, priority. */
  function TaskErrors(input: TaskInput): (r: seq<FieldError>)
    ensures r == [] <==>
      input.userId.Some? && TitleError(input.title).None?
      && (input.status.None? || ParseStatus(input.status.value).Some?)
      && (input.priority.None? || ParsePriority(input.priority.value).Some?)
  {
    (if input.userId.None? then [FieldError("userId", "User ID is required")] else [])
    + (if TitleError(input.title).Some? then [TitleError(input.title).value] else [])
    + (if input.status.Some? && ParseStatus(input.status.value).None?
       then [FieldError("status", EnumMessage(input.status.value, "status"))] else [])
    + (if input.priority.Some? && ParsePriority(input.priority.value).None?
       then [FieldError("priority", EnumMessage(input.priority.value, "priority"))] else [])
  }

  /** The outcome of building a document: the document, or the errors of its fields. */
  datatype Created = Created(doc: TaskDoc) | Invalid(errors: seq<FieldError>)

  /** Builds and validates a document; a field left absent takes its default (Pending, Low). */
  function CreateTask(input: TaskInput, id: string, now: int): (r: Created)
    ensures r.Invalid? <==> TaskErrors(input) != []
    ensures r.Invalid? ==> r.errors == TaskErrors(input)
  {
    var errs := TaskErrors(input);
    if errs != [] then Invalid(errs)
    else
      var status := if input.status.None? then Pending else ParseStatus(input.status.value).value;
      var priority := if input.priority.None? then Low else ParsePriority(input.priority.value).value;
      Created(TaskDoc(id, input.userId.value, Text.Trim(input.title.value), status, priority, now, now))
  }

  /** A stored task satisfies the schema: a trimmed title of 1 to 200 characters. */
  predicate ValidTask(d: TaskDoc) {
    1 <= |d.title| <= MaxTitleLength && Text.Trim(d.title) == d.title
  }

  /** A created document is valid, holds the submitted fields with their defaults, and carries the creation time twice. */
  lemma CreateTaskCorrect(input: TaskInput, id: string, now: int)
    requires CreateTask(input, id, now).Created?
    ensures var d := CreateTask(input, id, now).doc;
      && ValidTask(d)
      && d.id == id && Some(d.userId) == input.userId && d.title == Text.Trim(input.title.value)
      && (input.status.None? ==> d.status == Pending)
      && (input.status.Some? ==> StatusName(d.status) == input.status.value)
      && (input.priority.None? ==> d.priority == Low)
      && (input.priority.Some? ==> PriorityName(d.priority) == input.priority.value)
      && d.createdAt == now && d.updatedAt == now
  {
    Text.TrimIdempotent(input.title.value);
  }

  /** A title that is all whitespace is rejected as missing, and one over 200 characters as too long. */
  lemma TitleErrorCases(title: string)
    ensures Text.AllSpace(title) ==> TitleError(Some(title)) == Some(FieldError("title", "Task title is required"))
    ensures |Text.Trim(title)| > MaxTitleLength ==> TitleError(Some(title)) == Some(FieldError("title", "Task title cannot exceed 200 characters"))
  {
    Text.TrimEmptyIff(title);
  }
}
