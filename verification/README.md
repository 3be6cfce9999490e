# fortress in Dafny

A model of the parts of fortress where state and text are hard to get right, with proofs.

**The Nix config editor** (`NixSyntax`, `NixParser`, `NixValues`, `NixEdit`, `NixTable`, `NixLaws`,
`NixBind`, `NixConfigFile`, `EditorLaws`, `NixReject`, `DottedNames`, `Dashboard`, `SaveConfig`, `SaveLaws`,
`DottedWitness`). The dashboard edits the owner's Nix file by splicing text. A lossless tree keeps every
character of the file; a parser and a printer for the fragment below are proved inverse to each other, so
nothing is assumed about parsing. Lookup, splice, insertion and key listing are modelled on the tree and on
the text, and proved to agree: a splice of the text is an edit of the tree, and lookup is lookup in a flat
table of all bindings. On top of that stand the laws of the editor as its users see it: get after set,
undo, the frame, edits in any order, no conflicts, and the round trip of a submitted form and of the
same form submitted twice, each with the exact condition under which it holds.

**The forwarder** (`UdpFlows`, `Counters`, `Retry`, `ForwardTable`). The UDP read loop and its relays
are steps that interleave freely; so are the halves of a counter's decrement. Binding is a loop with
backoff against an arbitrary network; the live forward table is a state machine over serial adds and
removes.

**The account store** (`Accounts`, `AccountLaws`). Each operation is a sequence of commands on one
flat key-value store, any of which may fail. The theorems are about whole runs of serial operations
from the empty store. The history of an account is told by the answers and, for a signup that was cut
short, by which of its commands went through; the store is not looked at.

**Enrollment and boot** (`Enrollment`, `Placeholder`). The poll loop against an arbitrary edge, two files
written in steps between which the power may go, claims from the dashboard, reboots; invite links,
the `{tunnel_ip}` placeholder and the forwards a boot binds.

**The liveness cache** (`Liveness`). Overlapping snapshots over one cache.

Loops and operations that change state are methods, proved against functions that say what they
compute or leave behind; the properties are lemmas about those functions.

## Where the code and its comments differ

The model follows the code.

- `entry_indent` takes the indentation of the last line before the insertion point, not of the first
  entry as its comment says (nix_config_parser.rs:393-405).
- Inserted segments are joined by dots without quotes (nix_config_parser.rs:383), so a set may succeed
  and bind another path than the one it was given: `DottedNames.SetIsReadExactly` says exactly when, for
  all names of which nothing but a name can come, and `DottedWitness.DottedNameIsLost` shows it. Only the
  unbound rest of a path is written, so groups can be added to a user of any name that has a set of its
  own: `SaveLaws.OwnSetIsEnough`.
- `quote_nix_string` does not escape `${` (nix_config_parser.rs:91-106): `NixValues.QuotedRoundTrip`
  and `SaveLaws.SubmittedTextExactly` say exactly when a string survives. `SaveLaws.FormIsFollowedExactly`
  and `SaveLaws.SavingAgainExactly` say for both kinds of text exactly when a whole form does, and when
  saving it twice is saving it once.
- `descend` commits to the first match where lookup backtracks (nix_config_parser.rs:326-339), so a path
  that existing bindings block is not always refused: `NixLaws.RefusedExactly` and
  `NixLaws.ObstructedExactly` say exactly when, in every file; `NixLaws.WalkDoesNotBacktrack` shows one
  that is let through.
- An insertion into a `rec` set fails an assertion (nix_config_parser.rs:365-368):
  `EditorLaws.PanicsExactly`.
- A timed-out enrollment reports 0 polls (pairing.rs:340-342).
- A relay that exits before its entry is inserted leaves that entry behind for ever, although it is
  said to remove its own entry (udp.rs:115-127, 178): `UdpFlows.StaleExactly`, `UdpFlows.StaleForEver`.
- An approval with an empty name leaves a claim awaiting until the process ends (pairing.rs:388):
  `Enrollment.StrandedExactly` says over all runs that nothing else does. One with an empty token, or
  a crash between the two files, loses the token for good (pairing.rs:367-369, 404):
  `Enrollment.TokenComesExactly`.
- An approval may carry any text as the tunnel address. If bringing the tunnel up accepts it
  (app.rs:285-288), a later boot can fail an assertion exactly if the address overlaps the placeholder:
  `Placeholder.AddressPanicsExactly`.
- Deleting an account leaves its verify and reset tokens (account.rs:261-321), which then act on the next
  account with the same email: `AccountLaws.TokenActsOnItsOwnExactly`, `AccountLaws.TokenOutlivesAccount`.
- A serve task that ends by itself leaves its handle and its bound row, so that adding the place again
  answers Ok and serves nothing (tcp.rs:30-37, forwarder.rs:455-459): `ForwardTable.RunsUnlessEnded`,
  `ForwardTable.DeadUntilRemoved`.
- A forward bound from the configuration has a row but no handle, so adding the same place live tries
  to bind it again (forwarder.rs:373-420, 455-459): `ForwardTable.StaticBindExactly` says exactly when a
  static binding keeps rows and handles in step.

## The Nix fragment

A file is an attribute set under any number of function headers, `let ... in` and parentheses, or
another single value. Sets hold `inherit` clauses and bindings with dotted paths of identifiers and
quoted segments; values are strings with escapes and interpolations of plain selections, lists, sets,
`rec` sets, parenthesised groups of values, and atoms. White space, line and block comments are kept
between these, but not in the places listed below under what is left out.

## Model

| member | source | states |
|---|---|---|
| NixParser.PrintParse | crates/client/src/dashboard/nix_config_parser.rs:116-133 | a file that parses is printed back character for character, and its tree is well formed |
| NixParser.ParsePrint | crates/client/src/dashboard/nix_config_parser.rs:206-224 | the printed text of every well-formed tree parses, to that very tree |
| NixParser.ParseValueSound | crates/client/src/dashboard/nix_config_parser.rs:206-224 | a parsed value is well formed and, with what is left, prints the text that was parsed |
| NixParser.ParseValueComplete | crates/client/src/dashboard/nix_config_parser.rs:206-224 | a well-formed value followed by anything that cannot extend it is parsed back whole |
| NixParser.ParseEntriesSound | crates/client/src/dashboard/nix_config_parser.rs:206-224 | parsed bindings, closing trivia and the remaining text make up the text that was parsed |
| NixParser.ParseEntriesComplete | crates/client/src/dashboard/nix_config_parser.rs:206-224 | the bindings of every well-formed set are parsed back, and parsing stops at its closing brace |
| NixValues.QuoteNixString | crates/client/src/dashboard/nix_config_parser.rs:91-106 | the loop builds the literal of the string: each of the five characters escaped, the others verbatim, in quotes |
| NixValues.WrittenIsRead | crates/client/src/dashboard/nix_config_parser.rs:73-106 | the text written for a bool, or for a string or a list of strings that start no interpolation, is one well-formed value, and it is interpreted as the value written |
| NixValues.QuotedIsRead | crates/client/src/dashboard/nix_config_parser.rs:87-106 | wherever a written string is read, what is read depends on the string alone and what follows its closing quote is left over |
| NixValues.WrittenIsReadAs | crates/client/src/dashboard/nix_config_parser.rs:73-106 | the same for every written bool, string and list of strings |
| NixValues.ReadAsExactly | crates/client/src/dashboard/nix_config_parser.rs:458-503 | a written value that is read at all is one value with that very text; it is interpreted as the value written if and only if its strings start no interpolation, and else as neither a string nor a list |
| NixValues.QuotedRoundTrip | crates/client/src/dashboard/nix_config_parser.rs:87-106 | after the opening quote of a written string the first unescaped quote is the closing one and the literal read is the string, if and only if the string starts no interpolation |
| NixValues.DollarBraceIsNotEscaped | crates/client/src/dashboard/nix_config_parser.rs:91-106 | for example: the string `${x}` is written as an interpolation and not read back as a string |
| NixEdit.GetUnfold | crates/client/src/dashboard/nix_config_parser.rs:246-274 | lookup goes on to later bindings when a matching set does not hold the rest of the path |
| NixEdit.FindShift | crates/client/src/dashboard/nix_config_parser.rs:246-274 | the node found is the value that the tree gives for the path, wherever in the text the set stands |
| NixEdit.StoppedIsNone | crates/client/src/dashboard/nix_config_parser.rs:302-345 | the walk for a new binding ends without a place exactly when it is stopped: the path runs into a value that is not a set or into a longer bound name, at the first binding that matches |
| NixEdit.ReplaceText | crates/client/src/dashboard/nix_config_parser.rs:276-285 | replacing a found value changes the text of that value only; what stands before and after stays, and the found offset is where it starts |
| NixEdit.FindReplaced | crates/client/src/dashboard/nix_config_parser.rs:246-285 | a replaced value is found again at the same offset |
| NixEdit.InsertText | crates/client/src/dashboard/nix_config_parser.rs:356-391 | a new binding is one piece of text at the insertion point; what stands before and after stays |
| NixEdit.NewEntryText | crates/client/src/dashboard/nix_config_parser.rs:382-384 | the text `lead + dotted path + " = " + value + ";"` is the text of one binding |
| NixEdit.GetReplaced | crates/client/src/dashboard/nix_config_parser.rs:186-203 | after a replacement the path gives the new value |
| NixEdit.GetInserted | crates/client/src/dashboard/nix_config_parser.rs:186-203 | after an insertion that is not refused the path gives the new value |
| NixEdit.GetReplacedElsewhere | crates/client/src/dashboard/nix_config_parser.rs:246-285 | a replacement changes no path that is neither a prefix nor an extension of the edited one |
| NixEdit.GetInsertedElsewhere | crates/client/src/dashboard/nix_config_parser.rs:302-391 | an insertion changes no path that is neither a prefix nor an extension of the edited one |
| NixEdit.WalkAfterInsert | crates/client/src/dashboard/nix_config_parser.rs:302-345 | an insertion does not change the walk for an incomparable path: whether it is stopped, what part of the path is left, whether it ends in a `rec` set |
| NixEdit.WalkAfterReplace | crates/client/src/dashboard/nix_config_parser.rs:302-345 | nor does a replacement |
| NixEdit.ReplaceWF | crates/client/src/dashboard/nix_config_parser.rs:198-203 | replacing one value by a well-formed value keeps the file well formed |
| NixEdit.InsertWF | crates/client/src/dashboard/nix_config_parser.rs:198-203 | inserting a binding with identifier segments keeps the file well formed |
| NixTable.GetIsFirst | crates/client/src/dashboard/nix_config_parser.rs:246-274 | lookup through nested and dotted bindings gives the first entry with that path in the flat table of all bindings, in document order, and misses none |
| NixTable.CollectChildKeys | crates/client/src/dashboard/nix_config_parser.rs:407-446 | the loop collects the segments in document order and says whether there were any |
| NixTable.KeysAreNextSegments | crates/client/src/dashboard/nix_config_parser.rs:407-446 | a key is collected if and only if the flat table has a path that extends the prefix by it |
| NixTable.SortedUnique | crates/client/src/dashboard/nix_config_parser.rs:165-167 | two strictly sorted lists with the same members are the same list, so sorting and deduplicating determines the answer |
| NixTable.KeysExact | crates/client/src/dashboard/nix_config_parser.rs:153-171 | the answer is None exactly if no bound path extends the prefix, and otherwise exactly the next segments, strictly sorted |
| NixLaws.InsertKeepsConflictFree | crates/client/src/dashboard/nix_config_parser.rs:294-354 | if no attrpath is a prefix of a sibling's in any set, that still holds after any insertion |
| NixLaws.ReplaceKeepsConflictFree | crates/client/src/dashboard/nix_config_parser.rs:276-285 | the same after any replacement by a value without conflicts |
| NixLaws.RefusedExactly | crates/client/src/dashboard/nix_config_parser.rs:294-354 | in any set an unbound path is refused if and only if, among the bindings that the walk sees, a proper prefix of it is bound to a non-set, or it is a proper prefix of a bound path |
| NixLaws.SeenIsThere | crates/client/src/dashboard/nix_config_parser.rs:302-345 | what the walk sees are pairs of the flat table of all bindings |
| NixLaws.ObstructedExactly | crates/client/src/dashboard/nix_config_parser.rs:287-290 | in any set some binding blocks an unbound path if and only if the walk is stopped or overlooks it, behind a set that it goes into; so a refused path is blocked, and a blocked one is let through exactly if all that blocks it is overlooked |
| NixLaws.NothingIsOverlooked | crates/client/src/dashboard/nix_config_parser.rs:294-354 | in a set without conflicts nothing is overlooked, so there an unbound path is refused exactly if some binding blocks it |
| NixLaws.WalkDoesNotBacktrack | crates/client/src/dashboard/nix_config_parser.rs:326-339 | for example: in `a = { }; a.b = 5;` the path `a.b.c` is let through although the second binding blocks it |
| NixLaws.WalkThroughSet | crates/client/src/dashboard/nix_config_parser.rs:302-345 | in a set without conflicts the walk beyond a path that is bound to a set goes through that set |
| NixConfigFile.SpliceIsReplace | crates/client/src/dashboard/nix_config_parser.rs:276-285 | the text with the span of the found value exchanged is the print of the tree with that value replaced |
| NixConfigFile.SpliceIsInsert | crates/client/src/dashboard/nix_config_parser.rs:356-391 | the text with the entry spliced in is the print of the tree with one binding appended to the chosen set |
| NixConfigFile.SpliceSpan | crates/client/src/dashboard/nix_config_parser.rs:276-285 | the candidate is the text before the span, the replacement, and the text after it |
| NixConfigFile.SpliceEntry | crates/client/src/dashboard/nix_config_parser.rs:356-405 | the candidate is the text before the insertion point, a new line with the indentation and the dotted binding, and the text after it |
| NixConfigFile.ConfigFile.Parse | crates/client/src/dashboard/nix_config_parser.rs:124-128 | a file object is made exactly if the text parses, and holds that text |
| NixConfigFile.ConfigFile.FindAttrpath | crates/client/src/dashboard/nix_config_parser.rs:138-151 | the located value: its raw text is the text of its span; an empty path is never found |
| NixConfigFile.ConfigFile.AttrsetKeys | crates/client/src/dashboard/nix_config_parser.rs:160-171 | the keys under the path in the current text |
| NixConfigFile.ConfigFile.SetAttrpath | crates/client/src/dashboard/nix_config_parser.rs:173-204 | the result and the new text; any result but success leaves the text as it was; the text always parses |
| EditorLaws.FindTextIsValueAt | crates/client/src/dashboard/nix_config_parser.rs:138-151 | a path is found in the text exactly if the tree binds it; the raw text is the print of that value and the interpretation that of the value |
| EditorLaws.SetOutcome | crates/client/src/dashboard/nix_config_parser.rs:186-203 | setting a path to one value never yields an invalid text when the segments to write are identifiers; it is refused exactly when the walk is stopped, panics exactly when the target of an insertion is a `rec` set, and else gives the text of the edited tree, which parses to it |
| EditorLaws.GetAfterSet | crates/client/src/dashboard/nix_config_parser.rs:186-203 | after a successful set the path gives exactly the text that was set, replaced or inserted, and its interpretation |
| EditorLaws.OthersAfterSet | crates/client/src/dashboard/nix_config_parser.rs:173-186 | after a successful set every path that is neither a prefix nor an extension has the value it had |
| EditorLaws.SetAgain | crates/client/src/dashboard/nix_config_parser.rs:186-203 | setting the same value again succeeds and changes nothing |
| EditorLaws.Undo | crates/client/src/dashboard/nix_config_parser.rs:186-203 | after a replacement, setting the old raw text back restores the source character for character |
| EditorLaws.UntouchedAfterAll | crates/client/src/dashboard/mod.rs:113-123 | a list of edits leaves every path apart from all of them as it was |
| EditorLaws.AllTakeEffect | crates/client/src/dashboard/mod.rs:113-123 | in a list of edits with pairwise incomparable paths every edit is in effect at the end |
| EditorLaws.SettableElsewhere | crates/client/src/dashboard/nix_config_parser.rs:186-203 | a set at one path neither enables nor prevents a set at an incomparable path, nor changes what that one would write |
| EditorLaws.AppliesExactly | crates/client/src/dashboard/mod.rs:113-123 | a list of pairwise incomparable edits can be applied if and only if each of them could be applied alone |
| EditorLaws.AnyOrder | crates/client/src/dashboard/mod.rs:113-123 | if pairwise incomparable edits can be applied in one order, they can in every other, and the edited and the untouched paths end up with the same values |
| EditorLaws.SetKeepsConflictFree | crates/client/src/dashboard/nix_config_parser.rs:183-203 | a successful set of a value without conflicts keeps a file without conflicts that way |
| EditorLaws.NotFoundExactly | crates/client/src/dashboard/nix_config_parser.rs:183-203 | whatever the replacement text, a set of a file that parses answers NotFound if and only if the file has no set at its top, or the path is unbound and, among the bindings that the walk sees, a proper prefix of it is bound to a non-set or it is a proper prefix of a bound path |
| EditorLaws.ObstructedIsRefused | crates/client/src/dashboard/nix_config_parser.rs:183-203 | an unbound path is blocked by some binding if and only if the set answers NotFound or overlooks it, which it never does in a file without conflicts |
| EditorLaws.PanicsExactly | crates/client/src/dashboard/nix_config_parser.rs:364-368 | whatever the replacement text, the assertion on the target fails if and only if the path is unbound, nothing stops the walk, and it ends in a `rec` set |
| EditorLaws.RecCanHappen | crates/client/src/dashboard/nix_config_parser.rs:364-368 | for example: binding `a` in `rec{}` fails it |
| EditorLaws.OnlyTheRestIsWritten | crates/client/src/dashboard/nix_config_parser.rs:347-391 | in a file without conflicts a binding below a set that is there spells out at most what comes below it |
| NixReject.UnreadableIsRejected | crates/client/src/dashboard/nix_config_parser.rs:198-203 | a string or list text that is read as no value is never accepted, wherever it is spliced in |
| NixReject.WrittenIsSetAsRead | crates/client/src/dashboard/nix_config_parser.rs:186-203 | if a written value was set at all, whatever its strings hold, it was set as the one value that its text is read as |
| EditorLaws.KeysAfterSet | crates/client/src/dashboard/nix_config_parser.rs:153-171 | a successful set adds to the keys under a prefix of its path exactly the next segment, and changes no keys of paths apart |
| EditorLaws.DottedReadsBack | crates/client/src/dashboard/nix_config_parser.rs:383-384 | any segments joined by dots are read back as the same path if and only if each is an identifier |
| NixBind.PiecesOfJoin | crates/client/src/dashboard/nix_config_parser.rs:383-384 | the pieces between the dots are the segments themselves, unless one holds a dot; then they are more |
| NixBind.GetBound | crates/client/src/dashboard/nix_config_parser.rs:356-391 | a binding with other names than the rest of the path is read under what existing sets cover and those names, and no other path that is no prefix of the edited one changes |
| NixReject.UnnameableIsRejected | crates/client/src/dashboard/nix_config_parser.rs:198-203 | nothing is accepted for a path whose rest, joined by dots, is read as no attribute path |
| DottedNames.NotAName | crates/client/src/dashboard/nix_config_parser.rs:383-384 | joined segments without quotes, white space, and characters that end a name, a binding, a set or the text are read as no attribute path if some piece between the dots is no identifier |
| DottedNames.SpelledOutcome | crates/client/src/dashboard/nix_config_parser.rs:186-203 | for a path with such a rest and one value: a set is refused exactly when the walk is stopped, panics exactly when the target of an insertion is a `rec` set, and else is invalid exactly if some piece to be written is no identifier |
| DottedNames.SetIsReadExactly | crates/client/src/dashboard/nix_config_parser.rs:186-203 | after such a set the path is bound, to the value set, if and only if all segments that were written are identifiers; otherwise it stays unbound, and the path that the dots make of it is bound |
| DottedNames.ElsewhereAfterSpelled | crates/client/src/dashboard/nix_config_parser.rs:173-186 | paths apart from the edited one and from the one bound are read as before; what blocked them still does, and else a binding for them would be written as before |
| DottedNames.SetAgainExactly | crates/client/src/dashboard/nix_config_parser.rs:186-203 | setting the same value again changes nothing if and only if all segments that were written are identifiers |
| Dashboard.FindString | crates/client/src/dashboard/nix_config_parser.rs:595-606 | a field is the string at its path, or none if there is no string |
| Dashboard.ExtractServices | crates/client/src/dashboard/nix_config_parser.rs:608-618 | exactly the listed services whose flag reads as a bool, with that bool |
| Dashboard.ExtractUsers | crates/client/src/dashboard/nix_config_parser.rs:620-655 | one user for each key under the users' path, in order |
| Dashboard.ExtractConfig | crates/client/src/dashboard/nix_config_parser.rs:594-663 | the loops read the same fields as the specification of extraction reads off the text |
| Dashboard.SplitAtSeparator | crates/client/src/dashboard/mod.rs:349-353 | splitting the submitted groups at a comma or white space splits the text there |
| Dashboard.SplitWord | crates/client/src/dashboard/mod.rs:349-353 | a non-empty word without separators is one group |
| Dashboard.ServiceEdits | crates/client/src/dashboard/mod.rs:330-345 | the loop renders the planned service edits |
| Dashboard.UserEdits | crates/client/src/dashboard/mod.rs:347-369 | the loop renders the planned group edits |
| Dashboard.BuildEdits | crates/client/src/dashboard/mod.rs:310-372 | the edits are the rendering of the plan, in order |
| SaveConfig.Disk.WriteAtomic | crates/client/src/dashboard/mod.rs:127-139 | whatever step it stops at, the target holds the old text or, on success only, the whole new one; no other file changes but the temporary one |
| SaveConfig.Disk.Save | crates/client/src/dashboard/mod.rs:89-125 | all edits or none: a file that is missing, cannot be read or does not parse, a failed edit, or a stop at any step of the write leaves every file but the temporary one as it was; success leaves the text with all edits applied |
| SaveConfig.PlanExactly | crates/client/src/dashboard/mod.rs:302-372 | an edit is planned if and only if it is for a declared text field the form submits, for a service declared or ticked, or for a user's groups that the form submits and that are declared or not empty |
| SaveConfig.PlanIsApart | crates/client/src/dashboard/mod.rs:310-372 | the planned paths are pairwise incomparable when user names are distinct |
| SaveConfig.SavesExactly | crates/client/src/dashboard/mod.rs:113-124 | a save that writes identifiers only goes through if and only if each of its edits could be saved alone |
| SaveConfig.PlanTakesEffect | crates/client/src/dashboard/mod.rs:113-124 | once saved, a planned path is bound to the value its text is read as if all segments written for it are identifiers, and unbound otherwise; every path apart from all that are planned or bound instead has the value it had |
| SaveConfig.PlanKeys | crates/client/src/dashboard/mod.rs:113-124 | a save adds to the names below a path exactly the next segments of what it binds there |
| SaveLaws.PlanCanBeApplied | crates/client/src/dashboard/mod.rs:310-372 | no planned path is empty, so the assertion on paths never fails |
| SaveLaws.KnownField | crates/client/src/dashboard/mod.rs:113-124 | after a save each known field reads as its written text is read, if that could be written for it, as nothing if not, and as before if nothing was written for it |
| SaveLaws.UsersAfterSave | crates/client/src/dashboard/nix_config_parser.rs:620-655 | the users after a save are those before and those whose names the dots of written names make up |
| SaveLaws.SameUsers | crates/client/src/dashboard/nix_config_parser.rs:620-655 | after a save that writes identifiers only the user names are the same |
| SaveLaws.FormIsFollowedExactly | crates/client/src/dashboard/mod.rs:113-139 | after a save, extracting again gives every listed service the submitted state (absent is false), the submitted hostname and domain where they were declared, the submitted groups, and the same users and password hashes, if and only if no string that the form sets starts an interpolation and all that is written of user names are identifiers |
| DottedWitness.DottedNameIsLost | crates/client/src/dashboard/nix_config_parser.rs:383-384 | for example: a user `a.b` that only a dotted key binds is given groups, the save goes through, and the form is not followed |
| SaveLaws.SavingAgainExactly | crates/client/src/dashboard/mod.rs:302-372 | saving the same form a second time leaves the file as it is, character for character, if and only if all that is written of user names are identifiers |
| SaveLaws.OwnSetIsEnough | crates/client/src/dashboard/nix_config_parser.rs:347-391 | a user with a set of its own can be given groups whatever its name |
| SaveLaws.EmptyFileCanBeSaved | crates/client/src/dashboard/mod.rs:113-124 | in an empty file every form can be saved |
| SaveLaws.SubmittedTextExactly | crates/client/src/dashboard/nix_config_parser.rs:91-106 | a submitted text that was written is read back as submitted if and only if it starts no interpolation |
| Accounts.KeysApart | crates/controlplane/src/controlplane/account.rs:38-49 | no two keys of the store share a text, and the pattern of the session scan matches the session keys and no other |
| Accounts.ControlPlane.AccountSignup | crates/controlplane/src/controlplane/account.rs:194-247 | answer and store after a signup, for every choice of failing commands, with the two rollback deletes each on its own |
| Accounts.ControlPlane.Redeem | crates/controlplane/src/controlplane/account.rs:323-344 | `GETDEL`, then the change of the record: answer and store for every choice of failing commands |
| Accounts.ControlPlane.AccountVerify | crates/controlplane/src/controlplane/account.rs:323-344 | verifying is redeeming a verify token to activate the account |
| Accounts.ControlPlane.ResetPassword | crates/controlplane/src/controlplane/account.rs:447-472 | resetting is redeeming a reset token to set the new hash, after the password was validated |
| Accounts.ControlPlane.AccountLogin | crates/controlplane/src/controlplane/account.rs:350-370 | answer and store after a login: credentials before status, session last |
| Accounts.ControlPlane.AccountLogout | crates/controlplane/src/controlplane/account.rs:372-377 | a logout removes the session key |
| Accounts.ControlPlane.ResendVerification | crates/controlplane/src/controlplane/account.rs:394-417 | answer and store after a resend; a failed mail keeps the new token |
| Accounts.ControlPlane.RequestPasswordReset | crates/controlplane/src/controlplane/account.rs:424-443 | answer and store after a reset request; a failed mail keeps the new token |
| Accounts.ControlPlane.DeleteSessions | crates/controlplane/src/controlplane/account.rs:293-316 | the loop over scan pages deletes the sessions that hold the email and stops at the first failing command |
| Accounts.ControlPlane.AccountDelete | crates/controlplane/src/controlplane/account.rs:268-321 | answer and store after a delete that may stop at any command: invites, then sessions, then the record |
| AccountLaws.DeleteKeeps | crates/controlplane/src/controlplane/account.rs:261-321 | a delete, stopped anywhere or not at all, loses nothing but its invites, sessions of the email and, only when it succeeds, the record; and then no session of the email and none of the invites is left |
| AccountLaws.ActiveStays | crates/controlplane/src/controlplane/account.rs:323-344 | an active account stays active under every operation but its deletion |
| AccountLaws.StepKeepsSound | crates/controlplane/src/controlplane/account.rs:194-472 | every operation, whatever commands fail, keeps: each stored session's email has an active account |
| AccountLaws.SessionsAreActive | crates/controlplane/src/controlplane/account.rs:194-472 | in every run from the empty store each stored session's email has an active account |
| AccountLaws.NeverCorrupt | crates/controlplane/src/controlplane/account.rs:185-187 | no operation of a run ever finds a corrupt record |
| AccountLaws.DeletedForGood | crates/controlplane/src/controlplane/account.rs:318-320 | a delete that answers Ok leaves neither record nor session |
| AccountLaws.TokensHaveOneOwner | crates/controlplane/src/controlplane/account.rs:139-145 | with tokens drawn afresh, a stored token stands for the one email it was drawn for |
| AccountLaws.StoreTellsHistory | crates/controlplane/src/controlplane/account.rs:194-472 | over every run with fresh tokens the store says of an account what its history tells: there from signup to deletion, active once verified, with the password last set |
| AccountLaws.LoginExactly | crates/controlplane/src/controlplane/account.rs:346-370 | a login opens a session if and only if, by that history, the account is there and active and the password is the one last set |
| AccountLaws.IdentityIsKept | crates/controlplane/src/controlplane/account.rs:127-145 | while an account exists its uuid is the same, and once active it stays active |
| AccountLaws.SpentForGood | crates/controlplane/src/controlplane/account.rs:325-333 | a redeemed token is never in the store again |
| AccountLaws.SingleUse | crates/controlplane/src/controlplane/account.rs:325-333 | a verify or reset token that was accepted once is refused ever after |
| AccountLaws.SameAccountExactly | crates/controlplane/src/controlplane/account.rs:194-321 | an account is the same after some operations if and only if it was there and none of them deleted it |
| AccountLaws.TokenActsOnItsOwnExactly | crates/controlplane/src/controlplane/account.rs:261-333 | a verify or reset token that is accepted acts on the account its email has then; that is the account it was drawn for if and only if this was there after the draw and was not deleted since |
| AccountLaws.TokenOutlivesAccount | crates/controlplane/src/controlplane/account.rs:261-321 | a run in which the token of a deleted account activates the next account with its email, every command going through |
| AccountLaws.FailedMailRollsBack | crates/controlplane/src/controlplane/account.rs:232-246 | a signup whose mail fails leaves the store exactly as before if and only if both rollback commands go through |
| AccountLaws.RefusalsChangeNothing | crates/controlplane/src/controlplane/account.rs:194-443 | an answer that refuses an operation for what it found leaves the store as it was |
| AccountLaws.AnswersTellAccount | crates/controlplane/src/controlplane/account.rs:79-105 | duplicate, unknown, already active and not found are answered exactly when the account's history says so |
| AccountLaws.SessionsTellHistory | crates/controlplane/src/controlplane/account.rs:372-384 | a session token stands for an email only from the login that opened it to its logout, expiry or the account's deletion, and exactly then unless a deletion was cut short |
| UdpFlows.Forward.Received | crates/core/src/udp.rs:86-95 | a packet's address is looked up: its flow is found, or one is to be opened |
| UdpFlows.Forward.Touching | crates/core/src/udp.rs:91-94 | the activity time of the flow that was found is updated, as a step of its own |
| UdpFlows.Forward.Spawning | crates/core/src/udp.rs:107-126 | the relay is spawned before its entry is inserted |
| UdpFlows.Forward.Inserting | crates/core/src/udp.rs:127-128 | then the entry is inserted |
| UdpFlows.Forward.Waits | crates/core/src/udp.rs:153-164 | a relay waits until its last activity plus the idle timeout, as read when the wait begins |
| UdpFlows.Forward.Answered | crates/core/src/udp.rs:157-171 | an answer ends the relay's wait |
| UdpFlows.Forward.SentOn | crates/core/src/udp.rs:172-176 | once it is sent on, the flow is refreshed and the relay computes its deadline anew |
| UdpFlows.Forward.Exiting | crates/core/src/udp.rs:178-179 | an exiting relay removes the entry of its address |
| UdpFlows.NextKeeps | crates/core/src/udp.rs:86-180 | every step keeps: live relays are in the table or about to be, entries are of their own address, and while a flow is opened its address has no entry |
| UdpFlows.OneRelayPerAddress | crates/core/src/udp.rs:86-130 | in every interleaving an address has at most one live relay |
| UdpFlows.RemovesOnlyItsOwn | crates/core/src/udp.rs:178-178 | in every interleaving an exiting relay evicts no entry of another flow |
| UdpFlows.StaleExactly | crates/core/src/udp.rs:115-127 | an entry's relay is gone if and only if it exited between its spawn and the insertion of the entry |
| UdpFlows.EntriesAreLiveRelays | crates/core/src/udp.rs:115-127 | with spawn and insert as one step the entries are exactly the relays that have not removed themselves |
| UdpFlows.StaleForEver | crates/core/src/udp.rs:86-95 | a stale entry stays for ever and no relay is spawned for its address again |
| UdpFlows.StaleCanHappen | crates/core/src/udp.rs:115-127 | a run that leaves a stale entry, for any idle timeout |
| UdpFlows.ExpiresAfterSilence | crates/core/src/udp.rs:153-162 | a relay expires only after its destination was silent for the idle timeout |
| UdpFlows.ClientDoesNotPostpone | crates/core/src/udp.rs:91-94 | a run in which a relay may expire although the client sent a packet an instant before |
| Counters.Counter.Increment | crates/core/src/forwarder.rs:168-171 | an opening connection adds one |
| Counters.Counter.Load | crates/core/src/forwarder.rs:173-175 | a decrement first reads the counter |
| Counters.Counter.Subtract | crates/core/src/forwarder.rs:173-177 | the guarded half of a decrement takes one off, always |
| Counters.CountsOpenTasks | crates/core/src/tcp.rs:39-45 | in every interleaving the counter is the number of tasks that added and have not finished; it is never negative |
| Counters.GuardNeverSuppresses | crates/core/src/forwarder.rs:173-187 | in every interleaving the `> 0` guard lets the decrement through |
| Counters.DrainsToZero | crates/core/src/udp.rs:107-179 | when every task has finished the counter is zero |
| ForwardTable.KeyIsPlace | crates/core/src/forwarder.rs:547-551 | two forwards share a key if and only if they have the same protocol and listen address |
| ForwardTable.Forwarder.AddForward | crates/core/src/forwarder.rs:446-523 | answer and table after an add; unless the forward is served already, what is recorded is the verdict of the retry loop |
| ForwardTable.Forwarder.RemoveForward | crates/core/src/forwarder.rs:525-536 | answer and table after a remove |
| ForwardTable.StepKeepsSound | crates/core/src/forwarder.rs:199-270 | each add or remove keeps: a handle exactly for a bound row, each running task under one handle |
| ForwardTable.HandleIffBound | crates/core/src/forwarder.rs:446-536 | over every serial run from an empty live forwarder a key has a handle if and only if its row says bound, and no serve task runs without a handle |
| ForwardTable.ReadyExactly | crates/core/src/health.rs:194-207 | readiness holds if and only if some handle is registered |
| ForwardTable.ServedExactly | crates/core/src/forwarder.rs:446-536 | a key has a handle if and only if the last operation on it was an add that answered Ok |
| ForwardTable.RunsUnlessEnded | crates/core/src/forwarder.rs:446-536 | over every serial live run a handle's task runs if and only if it did not end by itself since it was spawned |
| ForwardTable.DeadUntilRemoved | crates/core/src/forwarder.rs:455-459 | once it ended, adding the place answers Ok and changes nothing, and its row says bound, until it is removed |
| ForwardTable.ReadyWithoutServing | crates/core/src/health.rs:194-207 | a run after which the forwarder is ready and no task runs |
| ForwardTable.TouchesOnlyItsKey | crates/core/src/forwarder.rs:446-536 | an operation on one key leaves row, handle and task of every other, failed binds included |
| ForwardTable.ReAddIsNoOp | crates/core/src/forwarder.rs:455-459 | adding a served place again changes nothing, not even with another destination |
| ForwardTable.RowsComeFromAdds | crates/core/src/forwarder.rs:196-227 | every row is that of an add of its key: its destination, and bound at the address the socket got or unbound at the address asked for with the failure |
| ForwardTable.RemoveUndoesAdd | crates/core/src/forwarder.rs:525-536 | removing a forward just added restores the table, but for an earlier failed row of that key |
| ForwardTable.FailedRowStays | crates/core/src/forwarder.rs:528-536 | the row of a failed add cannot be removed |
| ForwardTable.StaticBindExactly | crates/core/src/forwarder.rs:373-420 | a static binding keeps the invariant if and only if it fails at a place that is not served |
| ForwardTable.SoundThroughoutExactly | crates/core/src/forwarder.rs:371-536 | the invariant holds throughout a run, static bindings included, if and only if each of them fails at a place not served then |
| ForwardTable.StaticRowsHaveNoHandle | crates/core/src/forwarder.rs:373-420 | a run in which a running forward, bound statically, is marked unbound |
| Retry.RetryWithBackoff | crates/core/src/retry.rs:164-209 | the loop ends at the first attempt that is not transient, is past the deadline or is cancelled, and gives that attempt's verdict |
| Retry.BackoffIsClosedForm | crates/core/src/retry.rs:58-67 | doubling with a cap is min(100 ms * 2^k, 5 s) |
| Retry.AttemptsAreBounded | crates/core/src/retry.rs:175-206 | however long binds and sleeps take, a run makes at most one attempt more than the least number of delays that add up to the timeout |
| Retry.MostAttemptsClosedForm | crates/core/src/retry.rs:20-21 | that bound in closed form beyond the first six delays: 12 attempts for 30 s |
| Retry.SomeAttemptIsLast | crates/core/src/retry.rs:178-208 | the loop ends, whatever the binds do |
| Retry.GivesUpInTime | crates/core/src/retry.rs:190-205 | it gives up for the deadline only after it, on transient errors only, and starts no attempt five seconds (and what the sleep overran) after it |
| Retry.BoundIsMet | crates/core/src/retry.rs:175-206 | on an ideal clock with binds that never succeed exactly that many attempts are made, for every timeout |
| Retry.FirstOutcomeWins | crates/core/src/retry.rs:180-189 | the first outcome that is not transient, reached in time, is the answer |
| Enrollment.Box.Enroll | crates/client/src/pairing.rs:316-370 | outcome and disk of an enrollment against any edge: at most max_polls + 1 polls, a timeout after exactly that many waiting answers (reported as 0), both files as the approval and the edge's facts say after a success, and an untouched disk when it is denied, times out or the edge misbehaves |
| Enrollment.Box.Persist | crates/client/src/pairing.rs:381-413 | the two files in order, each emptied before it is written, the second only after the first is whole |
| Enrollment.WhatEnrollLeaves | crates/client/src/pairing.rs:345-370 | a success leaves both files whole with the tunnel returned; the token file changes only if the tunnel file is whole |
| Enrollment.NextKeepsSound | crates/client/src/dashboard/mod.rs:253-278 | every event of a box's life, crashes included, keeps: a token on disk means a tunnel state on disk, at most one enrollment in flight, and a whole tunnel state stays |
| Enrollment.SingleFlight | crates/client/src/dashboard/mod.rs:253-278 | in every run from a fresh box at most one enrollment is in flight, and a token on disk means a whole tunnel state on disk |
| Enrollment.NeverEnrollsAgain | crates/client/src/app.rs:228-273 | once the tunnel state is persisted it stays as it is, and no later boot or claim calls `begin` |
| Enrollment.ViewDuringClaim | crates/client/src/dashboard/mod.rs:384-397 | while an enrollment is in flight the dashboard shows the claim as awaiting or done |
| Enrollment.StrandedExactly | crates/client/src/pairing.rs:388-388 | over every run from a fresh box: a claim is left awaiting with nothing in flight and nothing persisted if and only if, since the last start, an approval with an empty name was informed and its task ended |
| Enrollment.StrandingCanHappen | crates/client/src/pairing.rs:388-388 | a fresh box gets there |
| Enrollment.StrandedUntilCrash | crates/client/src/dashboard/mod.rs:263-265 | from there no claim can be begun until the process ends |
| Enrollment.LostTokenNeverComes | crates/client/src/pairing.rs:367-369 | an enrollment that ends between the two files never gets its device token, in any later run |
| Enrollment.TokenComesExactly | crates/client/src/pairing.rs:367-369 | a box with its tunnel state and without its token can still get the token if and only if an enrollment is about to write it |
| Enrollment.LosingCanHappen | crates/client/src/pairing.rs:404-404 | a fresh box loses the token to an empty one, or to a crash between the files |
| Placeholder.InviteUrlExactly | crates/client/src/pairing.rs:63-80 | a link is accepted if and only if it is a scheme, a host, `/i/` and a code; the base is always https |
| Placeholder.ReplaceKeepsTheRest | crates/client/src/pairing.rs:457-462 | a text is its pieces joined by the placeholder, and replacing joins the same pieces by the address |
| Placeholder.LeftoversTouch | crates/client/src/pairing.rs:457-462 | a placeholder left after replacing touches a copy of the address |
| Placeholder.NoPlaceholderLeft | crates/client/src/pairing.rs:457-462 | for an address that does not overlap the placeholder none is left and none arises at a join |
| Placeholder.LeavesOneExactly | crates/client/src/pairing.rs:457-462 | an address can leave a placeholder in some text if and only if it overlaps it: one lies within the other, or the address ends as the placeholder begins or begins as it ends |
| Placeholder.DottedDoesNotOverlap | crates/client/src/pairing.rs:457-462 | non-empty addresses of digits and dots do not overlap it |
| Placeholder.SubstitutionIsReplacement | crates/client/src/pairing.rs:464-477 | substituting is plain replacement in both fields of every forward |
| Placeholder.SubstitutionIsFinal | crates/client/src/pairing.rs:464-477 | with an address that does not overlap the placeholder all fields are free of it, and a second substitution changes nothing |
| Placeholder.FullBootBinds | crates/client/src/app.rs:92-112 | in a full boot with such an address the assertions never fail and all forwards are bound, free of placeholders |
| Placeholder.AddressPanicsExactly | crates/client/src/app.rs:274-321 | an address that bringing the tunnel up accepts makes a boot fail an assertion, with some configuration, if and only if it overlaps the placeholder |
| Placeholder.BootPanicsExactly | crates/client/src/app.rs:274-321 | for one configuration: a boot fails an assertion if and only if bringing the tunnel up accepted the address and some field with a placeholder gets the empty address or keeps a placeholder, which a copy of the address then touches |
| Liveness.ReadCache | crates/client/src/dashboard/catalog.rs:153-163 | the loop takes over the fresh answers and lists the entries to probe |
| Liveness.NextKeepsSound | crates/client/src/dashboard/catalog.rs:148-193 | every step of overlapping snapshots keeps: each answer is a real one for its own url, or false with a task still out or broken; permits and running probes add up to eight |
| Liveness.AnswersAreReal | crates/client/src/dashboard/catalog.rs:148-193 | a finished snapshot answers each entry by a real probe of its own url less than 30 s before it began or later, or by the false of a broken task; never more than eight probes of a snapshot run |
| Liveness.SnapshotIsTruth | crates/client/src/dashboard/catalog.rs:148-193 | if liveness does not change and no task breaks, a finished snapshot is what probing every entry gives |

## Left out

- Nix outside the fragment: indented strings, dynamic attribute names, interpolations of anything but a
  plain selection (which in Nix may hold quotes, and so reach beyond the quote that would close the
  string), function application and operators outside parentheses, `with`, `assert` and `if`. rnix itself
  is replaced by the parser of the fragment, which does not tell numbers, paths and identifiers apart
  beyond what interpretation needs.
- NixParser.ParsePrint: is about the well-formed trees of the fragment.
- NixParser.ParseValueSound: is about the fragment.
- NixParser.ParseValueComplete: is about the fragment.
- NixParser.ParseEntriesSound: is about the fragment, without dynamic names.
- NixParser.ParseEntriesComplete: is about the fragment, without dynamic names.
- Outside the fragment are also: white space or a comment between a function's parameter and its colon
  or around the dots of an attribute path, comments inside a function's pattern or an `inherit` clause,
  names bound to a whole pattern by `@`, and defaults in a pattern that are more than atoms.
- Duplicate attributes that Nix would refuse when it evaluates a file are parsed, as rnix parses them.
- Text is a sequence of characters; the source works on UTF-8 bytes. The indentation of a line with
  wide white space therefore counts characters, not bytes.
- EditorLaws.SetOutcome: takes replacements that are the text of one well-formed value, which is all the
  dashboard writes, and writes identifiers only; `DottedNames.SpelledOutcome` is about other names. For any
  other replacement text `EditorLaws.NotFoundExactly` and `EditorLaws.PanicsExactly` hold, and what
  `NixConfigFile.ConfigFile.SetAttrpath` says.
- DottedNames.SpelledOutcome: is for names of which nothing but a name can come: joined by dots they hold no
  quote, white space, `=`, `#`, `/`, `$`, `;` or `}`. Other names may hold text that is read as other bindings.
- DottedNames.SetIsReadExactly: is for such names.
- SaveLaws.FormIsFollowedExactly: is for forms that write such names only, which can be seen before the save.
- SaveLaws.SavingAgainExactly: is for such forms.
- SaveConfig.SavesExactly: is for saves that write identifiers only; other names may bind what blocks a later edit.
- Descriptions and display names of services, the admin flag of a user, page rendering and the form's encoding.
- SaveConfig.Disk.Save: whether an existing file can be read is an input, and a rename is one atomic step.
- Email normalisation: emails come trimmed and in lower case. Whether an address parses is an input.
- AccountLaws.StoreTellsHistory: operations are serial; races between two operations on one email are not modelled.
- A store command that fails has no effect; a command whose answer is lost after it took effect is not modelled.
- bcrypt, mail, random tokens and uuids: hashes are exact, tokens fresh, sending may fail, expiry may come at any time.
- Accounts.ControlPlane.AccountDelete: leaves out the machines that a deletion removes, best effort, under keys of their own.
- Plans and the read-only `account_uuid`.
- UDP and TCP payloads, sockets and name resolution; the abort of a read loop while it opens a flow is the event `End`.
- Forwards bound by `run` and the drain at shutdown, beyond `ForwardTable.StaticRowsHaveNoHandle`; concurrent adds of one key.
- Retry.RetryWithBackoff: attempts are unbounded numbers, not `u32`; `Retry.AttemptsAreBounded` bounds them.
- WireGuard keys and commands, key rotation, the HTTP client and the edge itself.
- Enrollment.Box.Enroll: failures of the key pair and of parsing the link count as a failing first call.
- The restart after a claim always ends the process; a failing re-exec is not modelled.
- A device token of white space only is written like any other; the model does not trim it when it is read.
- The failed probe's reason and the catalog file's format.
