/** `TaskForm`: the title validator and the fields a form may edit. */
module Forms {
  import opened Wrappers
  import opened Text
  import opened Models

  /** The shortest title the form accepts, counted after stripping. */
  const MinTitleLength: nat := 3

  /** The fields a task form binds; nothing else of a task is form-editable. */
  const FormFields: set<string> := {"title", "description", "priority", "due_date"}

  datatype FormError = TitleTooShort | TitleTooLong | NullCharacter

  /** The values a bound task form carries. The priority is already one of
      the choices and the due date is optional. */
  datatype TaskFormData = TaskFormData(
    title: string,
    description: string,
    priority: Priority,
    dueDate: Option<Time>)

  /** `clean_title`: rejects a title shorter than three characters once
      stripped, and otherwise returns the title exactly as given, unstripped. */
  function CleanTitle(title: string): (r: Result<string, FormError>)
    ensures r.Ok? <==> |Strip(title)| >= MinTitleLength
    ensures r.Ok? ==> r.value == title
    ensures r.Err? ==> r.error == TitleTooShort
  {
    if |Strip(title)| < MinTitleLength then Err(TitleTooShort) else Ok(title)
  }

  /** Validation of a bound form. The text fields strip surrounding whitespace
      first and refuse the null character; the stripped title must also fit
      its 200-character column, and only a title that passed those field
      checks reaches `clean_title`. On success the cleaned data carries the
      stripped title and description and is otherwise as given. */
  function ValidateForm(data: TaskFormData): (r: Result<TaskFormData, FormError>)
    ensures r.Ok? <==>
      && MinTitleLength <= |Strip(data.title)| <= MaxTitleLength
      && '\0' !in Strip(data.title) && '\0' !in Strip(data.description)
    ensures r.Ok? ==> r.value == data.(title := Strip(data.title), description := Strip(data.description))
    ensures r.Err? && |Strip(data.title)| > MaxTitleLength ==> r.error == TitleTooLong
    ensures r.Err? && |Strip(data.title)| <= MaxTitleLength && '\0' in Strip(data.title) ==> r.error == NullCharacter
    ensures r.Err? && '\0' !in Strip(data.title) && |Strip(data.title)| < MinTitleLength ==> r.error == TitleTooShort
  {
    var title := Strip(data.title);
    var description := Strip(data.description);
    if |title| > MaxTitleLength then Err(TitleTooLong)
    else if '\0' in title then Err(NullCharacter)
    else match CleanTitle(title)
      case Err(e) => Err(e)
      case Ok(_) =>
        if '\0' in description then Err(NullCharacter)
        else Ok(data.(title := title, description := description))
  }

  /** A title whose padding alone makes it wider than its column is still
      accepted, since the width is measured after stripping. */
  lemma PaddedTitleFitsAfterStripping(data: TaskFormData)
    requires |data.title| > MaxTitleLength
    requires MinTitleLength <= |Strip(data.title)| <= MaxTitleLength
    requires '\0' !in data.title && '\0' !in data.description
    ensures ValidateForm(data).Ok? && |ValidateForm(data).value.title| <= MaxTitleLength
  {
  }

  /** Saving a valid form into an existing task: the four form fields take
      the form's values and every other field is kept. */
  function ApplyForm(t: Task, data: TaskFormData): (r: Task)
    ensures ChangedFields(t, r) <= FormFields
    ensures r.title == data.title && r.description == data.description
    ensures r.priority == data.priority && r.dueDate == data.dueDate
  {
    t.(title := data.title, description := data.description,
       priority := data.priority, dueDate := data.dueDate)
  }

  /** A form save never changes the status, the owner or the key. */
  lemma ApplyFormKeepsStatusAndOwner(t: Task, data: TaskFormData)
    ensures var r := ApplyForm(t, data);
      r.status == t.status && r.owner == t.owner && r.id == t.id
  {
  }

  /** Every title the form accepts is also accepted by the service layer,
      which only demands a non-blank title. */
  lemma FormTitlePassesService(title: string)
    requires CleanTitle(title).Ok?
    ensures Strip(title) != []
  {
  }

  /** The converse fails: the service layer accepts a two-letter title that
      the form rejects. */
  lemma ServiceLaxerThanForm()
    ensures Strip("ab") == "ab" && CleanTitle("ab") == Err(TitleTooShort)
  {
  }

  /** A padded two-letter title is rejected; a three-letter one is accepted
      as it is. */
  lemma CleanTitleExamples()
    ensures CleanTitle("  ab ").Err?
    ensures CleanTitle("abc") == Ok("abc")
  {
  }
}
