# Note form validation

A model of the note-creation form of a note-taking web application. When the
form is submitted, `handleSubmit` reads three raw fields (title, content, tag)
and normalises them. A missing title or content becomes the empty string,
and title and content are trimmed. A missing tag stays undefined and is never
a member of the enumeration; a present tag is used as typed. It then runs
three checks in order:

1. the title is 3 to 50 UTF-16 code units long,
2. the content is at most 500 UTF-16 code units long,
3. the tag belongs to the `Tag` enumeration.

The first failing check shows an error and returns. If all three pass, the
normalised `{title, content, tag}` is handed to the `createNote` mutation,
once. While that mutation is pending, both buttons are disabled and the submit
button reads "Creating..."; otherwise it reads "Create note".

The project has two modules:

- `JsString` (`js_string.dfy`) defines the two JavaScript string primitives
  the form uses. `Trim` is `String.prototype.trim`. It removes the white space
  of sections 12.2 and 12.3 of ECMA-262: WhiteSpace and LineTerminator, with
  the Zs category taken as of Unicode 15. `Utf16Length` is the `length`
  property, which counts UTF-16 code units, so a character outside the Basic
  Multilingual Plane counts twice. Strings are `seq<char>` of Unicode scalar
  values. That covers every string value a `FormData` can hold, because form
  values are USVStrings.
- `NoteForm` (`note_form.dfy`) defines the decision `Validate`, the
  early-return procedure `HandleSubmit`, an independent description
  `WellFormed` of an acceptable note, and the button state `ButtonsFor`.

The members of the `Tag` enumeration are defined outside the form. The model
takes them as a parameter `tags: set<string>`, so every result holds for any
enumeration.

## Model

| member | source | states |
|---|---|---|
| JsString.IsWhitespace | components/NoteForm/NoteForm.tsx:28-29 | The white space `trim` removes is the WhiteSpace and LineTerminator sets of ECMA-262 (Zs as of Unicode 15). Every such character lies in the Basic Multilingual Plane, so each one removed is exactly one code unit. |
| JsString.Trim | components/NoteForm/NoteForm.tsx:28-29 | `trim` returns the contiguous slice of its input that starts right after the leading white space. The slice has no white space at either end, and everything removed on either side is white space. |
| JsString.TrimUnique | components/NoteForm/NoteForm.tsx:28-29 | Those properties pin `trim` down completely: a trimmed string wrapped in white space on both sides trims back to itself. |
| JsString.TrimFixesTrimmed | components/NoteForm/NoteForm.tsx:28-29 | A string with no white space at either end is unchanged by `trim`. |
| JsString.TrimIdempotent | components/NoteForm/NoteForm.tsx:28-29 | Trimming twice gives the same string as trimming once. |
| JsString.TrimEmptyIffBlank | components/NoteForm/NoteForm.tsx:28-29 | `trim` returns the empty string exactly when the input is all white space. |
| JsString.TrimPadded | components/NoteForm/NoteForm.tsx:28-29 | Adding any white space on the left and any, possibly different, white space on the right of a string does not change its trim. |
| JsString.LeadingCount | components/NoteForm/NoteForm.tsx:28-29 | Counts the white-space prefix that `trim` removes: every counted character is white space, and the next character, if any, is not. |
| JsString.TrailingCount | components/NoteForm/NoteForm.tsx:28-29 | Counts the white-space suffix that `trim` removes: every counted character is white space, and the one before it, if any, is not. |
| JsString.Utf16Length | components/NoteForm/NoteForm.tsx:32-37 | `length` is between the character count and twice that count. It equals the character count exactly when every character lies in the Basic Multilingual Plane. |
| JsString.Utf16LengthAppend | components/NoteForm/NoteForm.tsx:32-37 | `length` is additive: the length of a concatenation is the sum of the lengths of its parts. |
| NoteForm.NormaliseText | components/NoteForm/NoteForm.tsx:28-29 | A missing title or content reads as `""`. A present one is replaced by its trimmed slice. Either way the result has no surrounding white space. |
| NoteForm.TitleOk | components/NoteForm/NoteForm.tsx:32 | The title test passes exactly when the length is between 3 and 50. The separate emptiness test `!title` never changes the verdict. |
| NoteForm.ContentOk | components/NoteForm/NoteForm.tsx:37 | The content test. Empty content passes. Any content of at most 250 characters passes, and any content of more than 500 characters fails, whatever the characters are. |
| NoteForm.TagOk | components/NoteForm/NoteForm.tsx:30-44 | The tag test is plain membership of the raw, untrimmed value. A missing tag never passes, and no tag passes an empty enumeration. |
| NoteForm.Validate | components/NoteForm/NoteForm.tsx:27-47 | Title error iff the trimmed title's length is outside 3..50. Content error iff the title passes and the trimmed content is longer than 500. Tag error iff both pass and the raw tag is missing or not a member. Submission iff all three pass. A submission carries the trimmed title and content and the untrimmed tag, and is `WellFormed`. |
| NoteForm.HandleSubmit | components/NoteForm/NoteForm.tsx:27-47 | Each call reports exactly one error or makes exactly one submission, never both. The error is the one `Validate` names, and the submission is `Validate`'s note. |
| NoteForm.FirstFailureReported | components/NoteForm/NoteForm.tsx:32-45 | Checks run title, then content, then tag. A bad title is reported whatever the content and tag. Bad content with a good title is reported whatever the tag. |
| NoteForm.ResubmitWellFormed | components/NoteForm/NoteForm.tsx:27-47 | Every well-formed note, typed into the form as it is, is submitted unchanged. Together with `Validate`'s contract, the accepted notes are exactly the well-formed ones. |
| NoteForm.ValidateIdempotent | components/NoteForm/NoteForm.tsx:27-47 | A submitted note, fed back through the form, is submitted again unchanged. |
| NoteForm.BlankTitleRejected | components/NoteForm/NoteForm.tsx:28-34 | A title that is missing, empty or all white space is rejected with the title error, whatever the content and tag are. |
| NoteForm.PaddingIrrelevant | components/NoteForm/NoteForm.tsx:28-29 | Padding either end of the title and either end of the content with any white space, each chosen independently, never changes the outcome. |
| NoteForm.EmptyContentAccepted | components/NoteForm/NoteForm.tsx:29-39 | Missing content is accepted as `""` when the title and tag pass. |
| NoteForm.TagNotTrimmed | components/NoteForm/NoteForm.tsx:30-44 | The tag is compared exactly as typed. A member padded with a space is rejected, while the member itself passes. |
| NoteForm.AstralTitleLength | components/NoteForm/NoteForm.tsx:32 | Length counts code units. A title made of one character from outside the Basic Multilingual Plane, repeated k times, passes exactly when 2 <= k <= 25. |
| NoteForm.ButtonsFor | components/NoteForm/NoteForm.tsx:96-105 | Cancel and Submit are disabled together, exactly when the mutation is pending. The label is one of the two fixed strings. |
| NoteForm.LabelMatchesDisabled | components/NoteForm/NoteForm.tsx:96-105 | The label reads "Creating..." exactly when both buttons are disabled. |

## Left out

- Toast messages: the model records which of the three errors was reported (`Reason`), not the toast text or the success and failure toasts of the mutation.
- The mutation itself (`useMutation`, `createNote`, the query-cache invalidation of `["notes"]`, the form reset and the redirect after success): these are a third-party query-cache library, a network call to the remote API, and browser side effects. `HandleSubmit` stops at the payload passed to `mutate`.
- File-valued form entries: `FormData.get` can return a `File`, whose `toString()` is `"[object File]"`. The form has only text fields, so an entry is modelled as absent or a string.
- The concrete members of `Tag`: they are defined in `types/note`, which is not part of this model. They are a parameter. Because the values are used as `<option value>`s, `Tag` is taken to be a string enumeration, whose `Object.values` are exactly its members.
- The HTML `required`, `minLength` and `maxLength` attributes and the rest of the JSX markup: the browser enforces these before `handleSubmit` runs, and the model covers `handleSubmit` on any input.
- White space defined by later Unicode versions: `IsWhitespace` fixes the Zs category as of Unicode 15. A JavaScript engine uses its own Unicode version.
- The list page, search debouncing, pagination and note detail pages: they only pass data to the query library and the renderer.
