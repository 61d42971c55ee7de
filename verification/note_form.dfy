/**
 The note-creation form: how `handleSubmit` turns the three raw form fields
 into either one error or one `createNote` submission, and how the mutation
 status drives the two buttons.
 */
module NoteForm {
  import opened JsString

  /** What `FormData.get(name)` yields for a field: nothing when the form has
      no such field, otherwise its string value. */
  datatype Entry = Absent | Present(value: string)

  /** The raw fields of one submitted form. */
  datatype FormFields = FormFields(title: Entry, content: Entry, tag: Entry)

  /** Which validation message the form reports. */
  datatype Reason = TitleLength | ContentLength | InvalidTag

  /** The payload passed to `mutate`, i.e. to `createNote`. */
  datatype NewNote = NewNote(title: string, content: string, tag: string)

  datatype Outcome = Reject(reason: Reason) | Submit(note: NewNote)

  const MinTitleLength: nat := 3
  const MaxTitleLength: nat := 50
  const MaxContentLength: nat := 500

  /** A note the form can submit, described without reference to the order
      of its checks: title and content carry no surrounding white space, the
      title is 3 to 50 code units long, the content at most 500, and the tag is
      a member of the `Tag` enumeration, whose members are given as `tags`. */
  predicate WellFormed(n: NewNote, tags: set<string>) {
    IsTrimmed(n.title) && IsTrimmed(n.content)
    && MinTitleLength <= Utf16Length(n.title) <= MaxTitleLength
    && Utf16Length(n.content) <= MaxContentLength
    && n.tag in tags
  }

  /** `formData.get(name)?.toString().trim() || ""`: a missing field reads as
      the empty string, a present one is trimmed. */
  function NormaliseText(e: Entry): (r: string)
    ensures IsTrimmed(r)
    ensures e.Absent? ==> r == ""
    ensures e.Present? ==> TrimmedFrom(e.value, LeadingCount(e.value), r)
  {
    match e
    case Absent => ""
    case Present(s) => Trim(s)
  }

  /** The title test: `!title || title.length < 3 || title.length > 50` fails.
      The emptiness test is subsumed by the lower bound. */
  predicate TitleOk(title: string)
    ensures TitleOk(title) <==> MinTitleLength <= Utf16Length(title) <= MaxTitleLength
  {
    !(title == "" || Utf16Length(title) < MinTitleLength || Utf16Length(title) > MaxTitleLength)
  }

  /** The content test: `content.length > 500` fails. */
  predicate ContentOk(content: string)
    ensures content == "" ==> ContentOk(content)
    ensures 2 * |content| <= MaxContentLength ==> ContentOk(content)
    ensures MaxContentLength < |content| ==> !ContentOk(content)
  {
    Utf16Length(content) <= MaxContentLength
  }

  /** `Object.values(Tag).includes(tag)`: the tag is taken as it is, without
      trimming, and a missing tag (`undefined`) is never a member. */
  predicate TagOk(tag: Entry, tags: set<string>)
    ensures tag.Absent? ==> !TagOk(tag, tags)
    ensures tags == {} ==> !TagOk(tag, tags)
    ensures TagOk(tag, tags) ==> tag.value in tags
  {
    tag.Present? && tag.value in tags
  }

  /** The decision `handleSubmit` makes, as a pure function. */
  function Validate(form: FormFields, tags: set<string>): (r: Outcome)
    ensures r.Submit? ==> WellFormed(r.note, tags)
    ensures r.Submit? ==>
              && r.note.title == NormaliseText(form.title)
              && r.note.content == NormaliseText(form.content)
              && form.tag == Present(r.note.tag)
    ensures r == Reject(TitleLength)
            <==> !(MinTitleLength <= Utf16Length(NormaliseText(form.title)) <= MaxTitleLength)
    ensures r == Reject(ContentLength)
            <==> MinTitleLength <= Utf16Length(NormaliseText(form.title)) <= MaxTitleLength
                 && MaxContentLength < Utf16Length(NormaliseText(form.content))
    ensures r == Reject(InvalidTag)
            <==> MinTitleLength <= Utf16Length(NormaliseText(form.title)) <= MaxTitleLength
                 && Utf16Length(NormaliseText(form.content)) <= MaxContentLength
                 && (form.tag.Absent? || form.tag.value !in tags)
    ensures r.Submit?
            <==> MinTitleLength <= Utf16Length(NormaliseText(form.title)) <= MaxTitleLength
                 && Utf16Length(NormaliseText(form.content)) <= MaxContentLength
                 && form.tag.Present? && form.tag.value in tags
  {
    var title := NormaliseText(form.title);
    var content := NormaliseText(form.content);
    if !TitleOk(title) then Reject(TitleLength)
    else if !ContentOk(content) then Reject(ContentLength)
    else if !TagOk(form.tag, tags) then Reject(InvalidTag)
    else Submit(NewNote(title, content, form.tag.value))
  }

  /** `handleSubmit` with its early returns: each failing check reports one
      error and returns before `mutate`; otherwise `mutate` runs once. The
      reported errors and the submitted payloads are the two out-parameters. */
  method HandleSubmit(form: FormFields, tags: set<string>)
    returns (errors: seq<Reason>, submitted: seq<NewNote>)
    ensures |errors| + |submitted| == 1
    ensures Validate(form, tags).Submit? ==> submitted == [Validate(form, tags).note]
    ensures Validate(form, tags).Reject? ==> errors == [Validate(form, tags).reason]
  {
    errors, submitted := [], [];
    var title := NormaliseText(form.title);
    var content := NormaliseText(form.content);

    if !TitleOk(title) {
      errors := errors + [TitleLength];
      return;
    }
    if !ContentOk(content) {
      errors := errors + [ContentLength];
      return;
    }
    if !TagOk(form.tag, tags) {
      errors := errors + [InvalidTag];
      return;
    }
    submitted := submitted + [NewNote(title, content, form.tag.value)];
  }

  /** The checks run title, then content, then tag, and only the first failure
      is reported: a bad title hides whatever is wrong with the content and
      tag, and bad content hides a bad tag. */
  lemma FirstFailureReported(form: FormFields, content': Entry, tag': Entry, tags: set<string>)
    ensures !TitleOk(NormaliseText(form.title)) ==>
              Validate(form, tags) == Reject(TitleLength)
              && Validate(FormFields(form.title, content', tag'), tags) == Reject(TitleLength)
    ensures TitleOk(NormaliseText(form.title)) && !ContentOk(NormaliseText(form.content)) ==>
              Validate(form, tags) == Reject(ContentLength)
              && Validate(FormFields(form.title, form.content, tag'), tags) == Reject(ContentLength)
  {
  }

  /** Every well-formed note passes the form unchanged when typed back into
      it: validation accepts exactly the notes `WellFormed` describes. */
  lemma ResubmitWellFormed(n: NewNote, tags: set<string>)
    requires WellFormed(n, tags)
    ensures Validate(FormFields(Present(n.title), Present(n.content), Present(n.tag)), tags)
            == Submit(n)
  {
    TrimFixesTrimmed(n.title);
    TrimFixesTrimmed(n.content);
  }

  /** Validation is idempotent: a submitted note, fed back through the form,
      is submitted again as it is. */
  lemma ValidateIdempotent(form: FormFields, tags: set<string>)
    requires Validate(form, tags).Submit?
    ensures var n := Validate(form, tags).note;
            Validate(FormFields(Present(n.title), Present(n.content), Present(n.tag)), tags)
            == Submit(n)
  {
    ResubmitWellFormed(Validate(form, tags).note, tags);
  }

  /** A title that is missing, empty or only white space is refused with the
      title message, whatever the content and tag are. */
  lemma BlankTitleRejected(form: FormFields, tags: set<string>)
    requires form.title.Absent? || AllWhitespace(form.title.value)
    ensures Validate(form, tags) == Reject(TitleLength)
  {
    if form.title.Present? {
      TrimEmptyIffBlank(form.title.value);
    }
  }

  /** Surrounding white space never decides the outcome: padding either end
      of the title and either end of the content with any white space gives
      the same result. */
  lemma PaddingIrrelevant(t: string, c: string, tag: Entry, tags: set<string>,
                          tl: string, tr: string, cl: string, cr: string)
    requires AllWhitespace(tl) && AllWhitespace(tr) && AllWhitespace(cl) && AllWhitespace(cr)
    ensures Validate(FormFields(Present(tl + t + tr), Present(cl + c + cr), tag), tags)
            == Validate(FormFields(Present(t), Present(c), tag), tags)
  {
    TrimPadded(tl, t, tr);
    TrimPadded(cl, c, cr);
  }

  /** Empty content is accepted: with a good title and a known tag the note is
      submitted with empty content. */
  lemma EmptyContentAccepted(title: string, tag: string, tags: set<string>)
    requires TitleOk(Trim(title)) && tag in tags
    ensures Validate(FormFields(Present(title), Absent, Present(tag)), tags)
            == Submit(NewNote(Trim(title), "", tag))
  {
  }

  /** The tag is compared as typed: when the enumeration holds `tag` but not
      `" " + tag`, a padded tag is refused although the title and content are
      fine. */
  lemma TagNotTrimmed(title: string, content: string, tag: string, tags: set<string>)
    requires TitleOk(Trim(title)) && ContentOk(Trim(content))
    requires tag in tags && " " + tag !in tags
    ensures Validate(FormFields(Present(title), Present(content), Present(" " + tag)), tags)
            == Reject(InvalidTag)
    ensures Validate(FormFields(Present(title), Present(content), Present(tag)), tags).Submit?
  {
  }

  /** The code-unit count is what is bounded, not the character count: a
      title of 25 characters from outside the Basic Multilingual Plane fills
      the 50-unit budget, and one more such character overflows it. */
  lemma AstralTitleLength(c: char, k: nat)
    requires c as int >= 0x1_0000
    ensures var title := seq(k, _ => c);
            TitleOk(title) <==> 2 <= k <= 25
  {
    RepeatLength(c, k);
  }

  lemma {:induction false} RepeatLength(c: char, k: nat)
    requires c as int >= 0x1_0000
    ensures Utf16Length(seq(k, _ => c)) == 2 * k
  {
    if k > 0 {
      var s := seq(k, _ => c);
      assert s[1..] == seq(k - 1, _ => c);
      RepeatLength(c, k - 1);
    }
  }

  /** The status of the `createNote` mutation, as the query library reports it. */
  datatype MutationStatus = Idle | Pending | Success | Error

  datatype Buttons = Buttons(cancelDisabled: bool, submitDisabled: bool, submitLabel: string)

  const CreatingLabel := "Creating..."
  const CreateLabel := "Create note"

  /** The Cancel and Submit buttons for a given mutation status. */
  function ButtonsFor(status: MutationStatus): (b: Buttons)
    ensures b.cancelDisabled == b.submitDisabled
    ensures b.submitDisabled <==> status == Pending
    ensures b.submitLabel in {CreatingLabel, CreateLabel}
  {
    var pending := status == Pending;
    Buttons(pending, pending, if pending then CreatingLabel else CreateLabel)
  }

  /** The submit label announces a pending creation exactly when both buttons
      are disabled, so the form never shows "Creating..." on a live button. */
  lemma LabelMatchesDisabled(status: MutationStatus)
    ensures var b := ButtonsFor(status);
            b.submitLabel == CreatingLabel <==> (b.submitDisabled && b.cancelDisabled)
  {
  }
}
