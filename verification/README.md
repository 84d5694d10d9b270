# Support console: template engine and conversation take-over, in Dafny

This project models the logic behind the supervisor side of an AI customer-support console:

- **The response-template engine.**
  - `extractVariables` scans a template for `{{name}}` placeholders, using the regular expression `/\{\{(\w+)\}\}/g`. It reports each name once, in order of first occurrence.
  - `fillTemplate` substitutes values for the placeholders, one key after another.
  - The variable filler's session: selecting a template, editing one variable, the "Use This Message" enable rule, and emitting the preview.
  - The template editor's detected variables, its initial form and its save guard.
- **The conversation page's take-over and compose state machine.**
  - Take over, return to AI, send, merge a voice transcript, apply a filled template, and open or close the templates dialog.
  - The rendering gate: which of these controls exist in which state.
- **Deletion from the template list.**

Every operation is a pure function on immutable datatypes. The modules are:

| module | file | contents |
|---|---|---|
| `Options` | options.dfy | `Option` |
| `Text` | text.dfy | word characters, the JavaScript `trim` whitespace set, `Trim`, occurrence of a pattern, `Join` |
| `Seqs` | seqs.dfy | no-duplicates, first index, and de-duplication two ways: by inserting into a set (`AddAll`) and by a reference definition (`FirstOccurrences`) |
| `Replace` | replace.dfy | global literal replacement and the matching `split` |
| `Placeholders` | placeholders.dfy | the scanner, `ExtractVariables`, and texts cut into literal pieces and placeholders |
| `Fill` | fill.dfy | the values record, `FillTemplate`, and how it acts on placeholders |
| `VariableFiller` | variable_filler.dfy | the fill session |
| `TemplateEditor` | template_editor.dfy | the editor form |
| `Conversation` | conversation.dfy | the conversation page |
| `TemplateList` | template_list.dfy | the template list page |

Three behaviours of the code that a reader might not expect:

- **First preview.** The first preview is the raw template content (`TemplateVariableFiller.tsx:48`).
- **No errors.** A second take-over, an edit of a name that is not a variable, or an empty save raise nothing. They are silent no-ops or ordinary updates.
- **Sequential substitution.** One key is substituted after another, so a value that spells the placeholder of a key later in the record is expanded again; one that spells an earlier key's placeholder stays as it is. `Fill.FillTemplateReexpands` exhibits this.

## Model

| member | source | states |
|---|---|---|
| Placeholders.ExtractVariables | src/components/templates/TemplateVariableFiller.tsx:28-32 | the result has no repeats; a string is in it exactly when it is a non-empty run of word characters whose `{{name}}` occurs in the text, and exactly when the scan captured it; names come out in the order of their first capture |
| Placeholders.MatchesAt | src/components/templates/TemplateVariableFiller.tsx:29-30 | the regex matches at a position: two opening braces, a non-empty maximal run of word characters, then two closing braces |
| Placeholders.NameAt | src/components/templates/TemplateVariableFiller.tsx:29-31 | the captured group `m[1]` of the match at a position: the word run between the braces |
| Placeholders.MatchEnd | src/components/templates/TemplateVariableFiller.tsx:29-30 | the regex's `lastIndex` after the match at a position: just behind its closing braces |
| Placeholders.ScanFrom | src/components/templates/TemplateVariableFiller.tsx:29-30 | the `matchAll` scan from a position: at a match it captures the name and resumes behind the closing braces, otherwise it moves one character on |
| Placeholders.Matches | src/components/templates/TemplateVariableFiller.tsx:29-30 | the names captured by the whole global scan, in order, repeats included |
| Placeholders.WordRunEnd | src/components/templates/TemplateVariableFiller.tsx:29 | `\w+` is greedy: the run it stops at consists of word characters and is followed by the end of the text or a non-word character |
| Placeholders.ScanFromShift | src/components/templates/TemplateVariableFiller.tsx:29-30 | the global scan looks only forward: behind any prefix it captures what it captures in the rest of the text |
| Placeholders.MatchesSoundAndComplete | src/components/templates/TemplateVariableFiller.tsx:29-30 | every captured name is a word whose placeholder occurs in the text, and every occurring placeholder of a word is captured |
| Placeholders.ExtractVariablesOfPrefix | src/components/templates/TemplateVariableFiller.tsx:30-31 | the variables of any prefix of a text are a prefix of the variables of the whole text |
| Placeholders.ExtractVariablesFirstOccurrenceOrder | src/components/templates/TemplateVariableFiller.tsx:30-31 | names are ordered by first occurrence: once a later name's placeholder has appeared in full, every earlier name's has too |
| Placeholders.ExtractVariablesOfGreeting | src/components/templates/TemplateVariableFiller.tsx:29-31 | `Hello {{name}}, order {{id}} ready, {{name}}` yields `[name, id]` |
| Placeholders.MatchesOfGreeting | src/components/templates/TemplateVariableFiller.tsx:29-30 | the raw matches of that text are `[name, id, name]`; the repeat is captured before de-duplication |
| Placeholders.ExtractVariablesAdjacent | src/components/templates/TemplateVariableFiller.tsx:29-31 | two adjacent placeholders are both recognised |
| Placeholders.ExtractVariablesNestedBraces | src/components/templates/TemplateVariableFiller.tsx:29 | `{{{{x}}}}` yields `[x]`: the scan skips the braces that cannot start a match |
| Placeholders.ExtractVariablesMalformed | src/components/templates/TemplateVariableFiller.tsx:29 | a single-brace `{x}`, a name with a non-word character and an unterminated `{{x` are not recognised |
| Placeholders.ExtractVariablesEmpty | src/components/templates/TemplateVariableFiller.tsx:28-32 | empty text has no variables |
| Placeholders.MatchesOfRender | src/components/templates/TemplateVariableFiller.tsx:29-30 | in a text whose literal parts hold no `{`, the scan captures exactly the placeholder names, in order |
| Placeholders.ExtractVariablesOfRender | src/components/templates/TemplateVariableFiller.tsx:28-32 | the variables of such a text are its placeholder names de-duplicated by first occurrence |
| Seqs.Dedup | src/components/templates/TemplateVariableFiller.tsx:31 | de-duplication by inserting into a set equals the first-occurrence reference definition |
| Seqs.AddAllExtendsFirstOccurrences | src/components/templates/TemplateVariableFiller.tsx:31 | inserting more elements into the set of first occurrences gives the first occurrences of the longer sequence |
| Seqs.FirstOccurrences | src/components/templates/TemplateVariableFiller.tsx:31 | the de-duplicated sequence has no repeats and holds exactly the elements of the input |
| Seqs.FirstOccurrencesOrdered | src/components/templates/TemplateVariableFiller.tsx:31 | the de-duplicated elements keep the order of their first positions in the input |
| Seqs.FirstOccurrencesOfPrefix | src/components/templates/TemplateVariableFiller.tsx:31 | de-duplicating a prefix gives a prefix of the de-duplicated whole |
| Seqs.FirstOccurrencesOfDistinct | src/components/templates/TemplateVariableFiller.tsx:31 | a sequence without repeats is its own de-duplication |
| Replace.ReplaceAll | src/components/templates/TemplateVariableFiller.tsx:37 | global replace: scanning left to right, each leftmost non-overlapping occurrence of the pattern becomes the value and the scan resumes behind it |
| Replace.ReplaceAllIsJoinOfSplit | src/components/templates/TemplateVariableFiller.tsx:37 | a global replace equals cutting the text at every occurrence and joining the pieces with the value |
| Replace.SplitJoinRoundTrip | src/components/templates/TemplateVariableFiller.tsx:37 | joining the pieces with the pattern gives the text back |
| Replace.SplitPiecesAreFree | src/components/templates/TemplateVariableFiller.tsx:37 | no piece contains the pattern: every occurrence is replaced |
| Replace.ReplaceAllAbsent | src/components/templates/TemplateVariableFiller.tsx:37 | a text without the pattern is returned unchanged |
| Replace.ReplaceAllWithItself | src/components/templates/TemplateVariableFiller.tsx:37 | replacing the pattern by itself changes nothing |
| Replace.ReplaceAllConcat | src/components/templates/TemplateVariableFiller.tsx:37 | replacement works piecewise across a boundary that no occurrence straddles |
| Fill.FillTemplate | src/components/templates/TemplateVariableFiller.tsx:34-40 | for each entry of the record in insertion order, every `{{key}}` in the text filled so far is replaced by the entry's value |
| Fill.Lookup | src/components/templates/TemplateVariableFiller.tsx:25 | a key has a value exactly when it is one of the record's keys |
| Fill.Assign | src/components/templates/TemplateVariableFiller.tsx:52 | the spread update gives the key the new value, leaves every other key's value as it was, and keeps the key order, adding a new key last |
| Fill.EmptyValues | src/components/templates/TemplateVariableFiller.tsx:45-46 | every variable maps to the empty string; for distinct variables the keys are exactly the variables, in order |
| Fill.FillStepReplacesEveryOccurrence | src/components/templates/TemplateVariableFiller.tsx:36-38 | one step cuts the text at every `{{key}}` and rejoins with the value; no piece still holds `{{key}}`, and rejoining with `{{key}}` restores the text |
| Fill.FillTemplateUntouched | src/components/templates/TemplateVariableFiller.tsx:34-40 | a template in which no key's placeholder occurs comes back unchanged, as does any template filled with an empty record |
| Fill.FillTemplateKeepsUnknownPlaceholders | src/components/templates/TemplateVariableFiller.tsx:34-40 | the placeholder of a name that is not a key survives filling as literal text |
| Fill.ReplaceKeepsOtherPlaceholder | src/components/templates/TemplateVariableFiller.tsx:37 | replacing one name's placeholder keeps every placeholder of another name |
| Fill.ReplaceAroundOtherPlaceholder | src/components/templates/TemplateVariableFiller.tsx:37 | replacement around another name's placeholder is replacement on each side of it |
| Fill.FillTemplateReexpands | src/components/templates/TemplateVariableFiller.tsx:36-38 | substitution is sequential: `{{a}}` with a = `{{b}}` and then b = `x` fills to `x` |
| Fill.ReplaceInRender | src/components/templates/TemplateVariableFiller.tsx:37 | for a template whose literal text holds no `{`, one step turns exactly the placeholders of that key into the value |
| Fill.FillTemplateOfRender | src/components/templates/TemplateVariableFiller.tsx:34-40 | filling such a template with brace-free values puts each name's value (the first entry for the name) where its placeholders were, and keeps placeholders without a value |
| Fill.AssignKeepsBraceFree | src/components/templates/TemplateVariableFiller.tsx:52 | storing a brace-free value under a word keeps the record brace-free |
| Fill.EmptyValuesBraceFree | src/components/templates/TemplateVariableFiller.tsx:45-46 | the initial record of a list of words is brace-free |
| VariableFiller.InitialFiller | src/components/templates/TemplateVariableFiller.tsx:24-26 | the filler opens with no template selected, an empty record and an empty preview |
| VariableFiller.Variables | src/components/templates/TemplateVariableFiller.tsx:63 | the variables of the selected template's content, or none while no template is selected |
| VariableFiller.SelectTemplate | src/components/templates/TemplateVariableFiller.tsx:42-49 | the template is selected; the record's keys are exactly its extracted variables, each mapped to ""; every other name is unmapped; the preview is the raw content |
| VariableFiller.ChangeVariable | src/components/templates/TemplateVariableFiller.tsx:51-57 | only the edited key changes value; an existing key keeps the key list; with a template selected, the preview is the template content filled with the new values; otherwise the preview stays |
| VariableFiller.AllVariablesFilled | src/components/templates/TemplateVariableFiller.tsx:63-64 | every variable has a stored value whose trimmed text is non-empty; a variable without a stored value fails |
| VariableFiller.UseEnabled | src/components/templates/TemplateVariableFiller.tsx:135-142 | the Use button is shown (a template is selected) and is not disabled: there are no variables, or all are filled |
| VariableFiller.Use | src/components/templates/TemplateVariableFiller.tsx:59-61 | a message comes out exactly when the button is enabled, and it is the preview verbatim |
| VariableFiller.UseEnabledIff | src/components/templates/TemplateVariableFiller.tsx:63-64 | Use is enabled exactly when a template is selected and every variable has a value that is not blank; a template without variables can always be used |
| VariableFiller.UseDisabledAfterSelect | src/components/templates/TemplateVariableFiller.tsx:42-49 | right after selection, a template with variables cannot be used |
| VariableFiller.PreviewIgnoresOldPreview | src/components/templates/TemplateVariableFiller.tsx:54-56 | with a template selected, the state after an edit does not depend on the previous preview |
| VariableFiller.EditKeepsSessionConsistent | src/components/templates/TemplateVariableFiller.tsx:110-121 | editing one of the form's variables keeps the record's keys equal to the template's variables, and the preview is the template filled with the current values |
| VariableFiller.SelectStartsConsistentSession | src/components/templates/TemplateVariableFiller.tsx:42-49 | selection starts a consistent session; the preview is the raw content and the form shows the extracted variables |
| VariableFiller.StatusShape | src/components/templates/TemplateVariableFiller.tsx:28-32 | the template `Hi {{a}}, order {{b}} is {{c}}` for three distinct words is plain text around holes a, b, c |
| VariableFiller.StatusVariables | src/components/templates/TemplateVariableFiller.tsx:28-32 | that template has exactly the variables a, b, c, in that order |
| VariableFiller.StatusFilled | src/components/templates/TemplateVariableFiller.tsx:34-40 | filled with brace-free values x, y, z for a, b, c, that template reads `Hi x, order y is z` |
| VariableFiller.UseStatus | src/components/templates/TemplateVariableFiller.tsx:59-61 | on that template, Use is enabled exactly when none of the three values is blank |
| VariableFiller.SelectStatus | src/components/templates/TemplateVariableFiller.tsx:42-49 | selecting that template shows it with three empty values and the variables a, b, c |
| VariableFiller.ChangeKeepsBraceFree | src/components/templates/TemplateVariableFiller.tsx:51-57 | storing a brace-free value under a word keeps all stored values brace-free |
| VariableFiller.EditStatusFirst | src/components/templates/TemplateVariableFiller.tsx:51-57 | editing a keeps the template on show and puts the new value in the first slot of the preview, the others unchanged |
| VariableFiller.EditStatusSecond | src/components/templates/TemplateVariableFiller.tsx:51-57 | editing b puts the new value in the second slot of the preview, the others unchanged |
| VariableFiller.EditStatusThird | src/components/templates/TemplateVariableFiller.tsx:51-57 | editing c puts the new value in the third slot of the preview, the others unchanged |
| VariableFiller.StatusSession | src/components/templates/TemplateVariableFiller.tsx:42-64 | after non-blank x and y are entered for a and b the preview ends in an empty status and Use is disabled; after a non-blank z for c the full message is previewed and Use emits it |
| VariableFiller.OrderStatusSession | src/components/templates/TemplateVariableFiller.tsx:42-64 | with customer_name, order_id, status: after Sam and 42 the preview is `Hi Sam, order 42 is ` and Use is disabled; after shipped the preview is `Hi Sam, order 42 is shipped` and Use emits it |
| TemplateEditor.InitialEditor | src/components/templates/TemplateEditor.tsx:29-32 | without an initial template the form is empty and not shared; with one it starts from its fields |
| TemplateEditor.NewTemplateStartsEmpty | src/components/templates/TemplateEditor.tsx:29-32 | a new template starts as "", "", "", false and cannot be saved yet |
| TemplateEditor.DetectedVariables | src/components/templates/TemplateEditor.tsx:34-40 | the detected variables have no repeats and are exactly the words whose placeholder occurs in the content: the filler's rule |
| TemplateEditor.SaveEnabled | src/components/templates/TemplateEditor.tsx:108 | the save button is enabled exactly when name, category and content are all non-empty |
| TemplateEditor.Save | src/components/templates/TemplateEditor.tsx:42-45 | a record is saved exactly when name, category and content are all non-empty; name, category, content and shared pass through, and the variables are the detected variables |
| TemplateEditor.SavedTemplatesAreWellFormed | src/components/templates/TemplateEditor.tsx:42-45 | every saved record has non-empty display fields and holds its content's variables, without repeats |
| TemplateEditor.SaveRejectsEmptyField | src/components/templates/TemplateEditor.tsx:43 | an empty name, category or content makes save a no-op |
| TemplateEditor.SaveAcceptsBlankContent | src/components/templates/TemplateEditor.tsx:43 | the guard does not trim: content made only of whitespace is saved |
| Conversation.Initial | src/pages/Conversations.tsx:53-56 | the page opens with the AI in control, the given transcript, an empty buffer and the dialog closed |
| Conversation.TakeOver | src/pages/Conversations.tsx:58-64 | the supervisor is in control; messages, buffer and dialog are unchanged |
| Conversation.ReturnToAI | src/pages/Conversations.tsx:66-72 | the AI is in control; messages, buffer and dialog are unchanged |
| Conversation.SendMessage | src/pages/Conversations.tsx:74-85 | blank input changes nothing; otherwise exactly one supervisor message with the untrimmed input and the given timestamp is appended, the earlier messages are kept in order, and the buffer is cleared |
| Conversation.MergeTranscript | src/pages/Conversations.tsx:88 | the buffer is kept as a prefix and the transcript ends the result; an empty buffer becomes the transcript, otherwise exactly one space separates them |
| Conversation.VoiceTranscript | src/pages/Conversations.tsx:87-89 | only the buffer changes: it becomes the merge of the old buffer and the transcript (contract under `Conversation.MergeTranscript`); messages, control and dialog are kept |
| Conversation.EditInput | src/pages/Conversations.tsx:169 | typing replaces the buffer and changes nothing else |
| Conversation.UseTemplate | src/pages/Conversations.tsx:91-98 | the filled text replaces the buffer outright, the dialog closes, and the messages are unchanged |
| Conversation.OpenTemplates | src/pages/Conversations.tsx:145 | the dialog opens; nothing else changes |
| Conversation.CloseTemplates | src/pages/Conversations.tsx:225-234 | the dialog closes; nothing else changes |
| Conversation.Enabled | src/pages/Conversations.tsx:138-179 | which controls are rendered: Take Over while the AI is in control; Return to AI, Templates and the composer after a take-over; a filled template and closing the dialog while the dialog is open (the filler's own gate is not part of the page state) |
| Conversation.Apply | src/pages/Conversations.tsx:139-176 | which handler each control calls: Take Over, Templates, Return to AI, typing, Enter or the send button, the voice input, and the dialog's Use and cancel (lines 225-233) |
| Conversation.Step | src/pages/Conversations.tsx:138-179 | an event takes effect exactly when `Conversation.Enabled` holds; a filled template is accepted with any text while the dialog is open |
| Conversation.FillerUseFillsBuffer | src/components/templates/TemplateVariableFiller.tsx:59-61 | a message the filler's enabled Use button emits, handed to the open dialog, becomes the buffer as the filler's preview verbatim and closes the dialog (Conversations.tsx:91-98) |
| Conversation.StepAppendsOnlySupervisorMessages | src/pages/Conversations.tsx:74-85 | one step keeps every message in place and adds at most one, written by the supervisor under supervisor control |
| Conversation.RunAppendsOnlySupervisorMessages | src/pages/Conversations.tsx:54 | over any event sequence the message list only grows, and everything added was written by the supervisor |
| Conversation.ComposerRequiresTakeOver | src/pages/Conversations.tsx:143-179 | typing, voice, send, the Templates button and Return to AI are available exactly under supervisor control |
| Conversation.TakeOverOfferedIff | src/pages/Conversations.tsx:138-142 | Take Over is offered exactly while the AI is in control |
| Conversation.ReturnUndoesTakeOver | src/pages/Conversations.tsx:58-72 | returning to the AI after a take-over restores the state |
| Conversation.TakeOverIdempotent | src/pages/Conversations.tsx:58-64 | a second take-over changes nothing |
| Conversation.MergeAllJoins | src/pages/Conversations.tsx:87-89 | successive transcripts onto a non-empty buffer are joined with single spaces |
| Conversation.MergeAllFromEmpty | src/pages/Conversations.tsx:87-89 | from an empty buffer, a first non-empty transcript and the ones after it are joined with single spaces |
| Conversation.VoiceExample | src/pages/Conversations.tsx:88 | `Thanks` then the transcript `for waiting` gives `Thanks for waiting` |
| Conversation.TemplateThenSend | src/pages/Conversations.tsx:74-98 | a used template replaces the buffer, and sending it appends it verbatim as a supervisor message |
| TemplateList.Delete | src/pages/Templates.tsx:45-51 | no entry with the id remains; every entry with another id is kept; nothing new appears; the length drops by the number of entries with the id |
| TemplateList.DeleteConcat | src/pages/Templates.tsx:46 | deletion from a concatenation is the concatenation of the deletions, so relative order is kept |
| TemplateList.DeleteAbsent | src/pages/Templates.tsx:46 | deleting an id no entry carries leaves the list unchanged |
| TemplateList.DeleteIdempotent | src/pages/Templates.tsx:46 | deleting twice is deleting once |
| TemplateList.DeleteCommutes | src/pages/Templates.tsx:46 | deleting two ids gives the same list in either order |
| Text.IsWhitespace | src/components/templates/TemplateVariableFiller.tsx:64 | the characters `trim` removes: the WhiteSpace and LineTerminator characters of ECMA-262 |
| Text.Trim | src/components/templates/TemplateVariableFiller.tsx:64 | JavaScript `trim`: the result is the text with a blank prefix and a blank suffix cut off, and neither of its ends is whitespace, so exactly the leading and trailing whitespace is removed; Conversations.tsx:75 uses the same test |
| Text.TrimStart | src/components/templates/TemplateVariableFiller.tsx:64 | what remains is a suffix of the text, everything cut was whitespace, and it does not start with whitespace |
| Text.TrimEnd | src/components/templates/TemplateVariableFiller.tsx:64 | what remains is a prefix of the text, everything cut was whitespace, and it does not end with whitespace |
| Text.IsWordChar | src/components/templates/TemplateVariableFiller.tsx:29 | the `\w` class without the `u` flag: ASCII letters, digits and underscore |
| Text.TrimEmptyIffBlank | src/components/templates/TemplateVariableFiller.tsx:64 | the trimmed text is empty exactly when every character is JavaScript whitespace |

## Left out

- Rendering, layout, toasts, routing (`useNavigate`, `useParams` and the page shown without an id) and the dialog's overlay are user interface, not logic. The page's mock transcript and mock templates are only data: the initial transcript is a parameter of `Conversation.Initial`.
- The clock reading of a sent message (`toLocaleTimeString`) is a parameter of `Conversation.SendMessage`.
- The speech recogniser behind the voice input is outside the model. Only the transcript it delivers is modelled.
- The Enter key and the send button both call `handleSendMessage`, so both are the one `SendClicked` event.
- Fill.FillTemplate: JavaScript's special replacement patterns (`$&`, `$1`, `$$`, …) in a value are not modelled; values are inserted literally. The key is put into a regular expression unescaped; every key the filler stores is a word, so that expression matches the literal placeholder.
- Fill.Assign: `Object.entries` lists integer-like keys first, whatever their insertion order. The model keeps plain insertion order.
- Conversation.Enabled: the filler's state is not part of the page, so a filled template (`TemplateUsed`) is accepted with any text while the dialog is open. The code renders Use only once a template is selected, enables it only under the rule of `VariableFiller.UseEnabled`, and hands over the filler's preview; the page model over-approximates that. `Conversation.FillerUseFillsBuffer` connects the two for a message the filler does emit.
- Fill.Lookup: JavaScript's `__proto__` key is not modelled. It passes `\w+`, but on a plain object reading it yields `Object.prototype`, not `undefined`, and assigning a string to it is ignored; the model treats it as an ordinary key.
- VariableFiller.SelectTemplate: JavaScript's `__proto__` key is not modelled. For a template holding `{{__proto__}}` the code stores no empty value for it, and the `.trim()` call of the enable rule throws once it reaches that variable before it has been edited; the model stores "" under it, and Use is simply disabled.
- Strings are sequences of Unicode characters, not UTF-16 code units. The JavaScript whitespace set is written out.
- The editor's field setters (`setName` and so on) and the share switch are plain assignments with no logic.
- The template list's create and edit forms store nothing, so only deletion is modelled.
- The list page's mock templates use single-brace placeholders, which the scanner ignores (see `Placeholders.ExtractVariablesMalformed`).
- The model has no error outcomes, because the code raises none: a double take-over and an unknown variable name are ordinary updates.
- The dashboard, metrics hook, agent configuration page, conversation list and chat message components are not part of this model. They are presentation, timers and random data.
