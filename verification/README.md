# IGV preferences dialog: the staging ledger, field validation and commit

This project models the decision layer of IGV's preferences dialog,
`PreferencesEditor`. It proves properties of that model in Dafny.

The dialog never writes edits straight into the preference store. Each
widget handler validates its text and stages the value in a ledger of
pending changes (`updatedPreferenceMap`). The ledger's `put` silently
drops a value equal to the one already stored. With invalid input OK only
re-arms validation. With valid input it does three things:
- it stages the variant colours;
- it writes the ledger to the store and fires the side effects its dirty
  flags call for;
- it clears the ledger.

Cancel writes nothing.

The model is a set of pure functions over immutable values:

- `Ledger` holds:
  - the store, a map from key to text;
  - the ledger, a map from key to an optional text, where `None` is a
    staged Java null;
  - the overridden `put`;
  - `putAll`.
- `Fields` holds:
  - the dialog record: store, ledger, validity flag, the three dirty flags,
    and the two pending directory moves;
  - one handler per kind of widget: integer fields (one table-driven
    handler for twenty fields), floating-point fields, sequence resolution,
    database port, checkboxes, text fields, the whitelist, hidden tags, the
    probe-file and reset buttons, and the two directory choosers;
  - a dispatcher `Apply` and `Replay`, which runs a sequence of user
    interactions.
- `Commit` holds:
  - `checkForVCFColors`;
  - OK, with its outcomes: stays open, closed with its side effects, or
    fails while parsing the listener port;
  - Cancel and `resetValidation`;
  - the order in which OK performs its effects.
- `Tabs` holds `selectTab`.
- `TextForms` holds the hidden-tag normaliser and its load-time form, the
  proxy whitelist joiner, the default-font description and the font style
  bits.
- Two modules stand in for the Java library calls the handlers make:
  - `JavaInts`: `Integer.parseInt` and `String.valueOf(int)`;
  - `JavaStrings`: `trim`, `Boolean.valueOf`, `equalsIgnoreCase` and
    single-character `split`.
- `FieldLaws` and `CommitLaws` relate several calls.

Things the model cannot see are parameters:
- floating-point parsing, as a pair of `NumberParser` oracles:
  `Double.parseDouble` for the visibility-window, insert-percentile and
  allele-threshold fields, and `Float.parseFloat`, which rounds to single
  precision, for the maximum-visible-range, CRAM cache-size and
  sequence-resolution fields;
- colour parsing and printing, as a `ColorCodec`;
- the current widget texts;
- the file-chooser result.

## Model

All source paths refer to `src/main/java/org/broad/igv/prefs/PreferencesEditor.java`.

| member | source | states |
|---|---|---|
| Ledger.Put | src/main/java/org/broad/igv/prefs/PreferencesEditor.java:79-88 | A value equal to the stored one leaves the ledger unchanged, even when an earlier different value is staged for that key; any other value replaces that key's entry; no other entry changes. Staging null for a key the store lacks is excluded, because it would dereference null. |
| Ledger.PutKeepsPending | src/main/java/org/broad/igv/prefs/PreferencesEditor.java:79-88 | If every ledger entry differs from the store before a `put`, the same holds after it. |
| Ledger.Flush | src/main/java/org/broad/igv/prefs/PreferencesEditor.java:135 | After `putAll`, a staged key reads its staged value, except that a staged null or empty string removes the key (the handler comment at :3083); an unstaged key reads its stored value. |
| Ledger.FlushChangesExactlyLedgerKeys | src/main/java/org/broad/igv/prefs/PreferencesEditor.java:135 | With a ledger of genuine changes, a key reads differently after the flush exactly when it is staged, except an empty string staged for a key the store lacks, which leaves it unset. |
| Ledger.StageThenFlush | src/main/java/org/broad/igv/prefs/PreferencesEditor.java:79-88 | A non-empty staged value is what the store reads after the flush exactly when it differs from the stored value or no other edit of that key is pending; a staged empty string different from the stored value leaves the key unset. |
| Ledger.EditBackCommitsStaleValue | src/main/java/org/broad/igv/prefs/PreferencesEditor.java:79-88 | Editing a value away from the store and back again commits the intermediate value (unsetting the key if that value is empty). |
| Fields.Open | src/main/java/org/broad/igv/prefs/PreferencesEditor.java:89-97 | A new dialog holds the store, an empty ledger and valid input; no dirty flag is set and no directory move is pending. |
| Fields.EditInt | src/main/java/org/broad/igv/prefs/PreferencesEditor.java:2722-2941 | Covers the twenty integer fields. On acceptance (parses as an `int` and meets the field's bound), the handler stages the possibly trimmed text and keeps validity. On rejection it stages nothing, and clears validity unless the field is a junction, tooltip or proxy-port field. A junction field complains only for its own trigger. The tooltip and proxy-port fields set their dirty flag exactly on acceptance. |
| Fields.DbPortText | src/main/java/org/broad/igv/prefs/PreferencesEditor.java:3647-3661 | The staged port always parses as an `int`. It is the trimmed text when that parses, and "-1" otherwise, including for blank text. |
| Fields.EditDbPort | src/main/java/org/broad/igv/prefs/PreferencesEditor.java:3643-3661 | The port text is staged through the ledger's `put`, so the ledger afterwards is exactly `put`'s result: a value equal to the stored one is dropped, and an earlier different edit of that key stays staged; nothing else changes, there is no feedback, and a port text different from the stored one is what OK commits. |
| Fields.EditNumber | src/main/java/org/broad/igv/prefs/PreferencesEditor.java:3024-3069 | Covers the six floating-point fields. Parseable text, possibly trimmed, is staged through the ledger's `put`, so the ledger afterwards is exactly `put`'s result: a value equal to the stored one is dropped, and an earlier different edit of that key stays staged. Otherwise nothing is staged and validity is cleared only for the fields whose handler does so. The feedback is exact: a failing visibility-window Enter resets the junction-flanking box to the stored window (focus loss is silent), a failing cache size resets its own box, and the other fields warn. |
| Fields.EditSequenceResolution | src/main/java/org/broad/igv/prefs/PreferencesEditor.java:3088-3106 | Enter does nothing. Focus loss parses the text with commas removed through the supplied single-precision parser. A finite value in [1, 10000] or NaN stages the text as typed through the ledger's `put`, so the ledger afterwards is exactly `put`'s result: a value equal to the stored one is dropped, and an earlier different edit of that key stays staged. Other finite values and infinities only warn. Unparseable text warns and clears validity. |
| Fields.ToggleBox | src/main/java/org/broad/igv/prefs/PreferencesEditor.java:2581-2604 | A checkbox stages "true" or "false" for its state through the ledger's `put`, so the ledger afterwards is exactly `put`'s result: a value equal to the stored one is dropped, and an earlier different edit of that key stays staged; nothing else changes and there is no feedback. |
| Fields.ToggleNegatedBox | src/main/java/org/broad/igv/prefs/PreferencesEditor.java:2985-2989 | The duplicates and auto-discovery boxes stage the negation of their state through the ledger's `put`, so the ledger afterwards is exactly `put`'s result: a value equal to the stored one is dropped, and an earlier different edit of that key stays staged; nothing else changes. |
| Fields.NegatedBoxShown | src/main/java/org/broad/igv/prefs/PreferencesEditor.java:3888 | A negated box shows unticked exactly when the stored text is "true", ignoring case (`Boolean.valueOf`); any other stored text, and a missing key, shows ticked. |
| Fields.ToggleOverlayTracks | src/main/java/org/broad/igv/prefs/PreferencesEditor.java:3243-3249 | Stages the box state through the ledger's `put`, so the ledger afterwards is exactly `put`'s result: a value equal to the stored one is dropped, and an earlier different edit of that key stays staged, and marks the overlays dirty; nothing else changes. |
| Fields.ToggleProxyOption | src/main/java/org/broad/igv/prefs/PreferencesEditor.java:3513-3535 | "Use proxy" and "authenticate" stage their state through the ledger's `put`, so the ledger afterwards is exactly `put`'s result: a value equal to the stored one is dropped, and an earlier different edit of that key stays staged, and mark the proxy settings dirty; nothing else changes. |
| Fields.ToggleAttributeDisplay | src/main/java/org/broad/igv/prefs/PreferencesEditor.java:3341-3345 | Stages the state through the ledger's `put`, so the ledger afterwards is exactly `put`'s result: a value equal to the stored one is dropped, and an earlier different edit of that key stays staged, and asks for the attribute panel to be shown or hidden. |
| Fields.ToggleShadeBases | src/main/java/org/broad/igv/prefs/PreferencesEditor.java:2945-2963 | Ticking stages QUALITY through the ledger's `put`, so the ledger afterwards is exactly `put`'s result: a value equal to the stored one is dropped, and an earlier different edit of that key stays staged. Unticking stages NONE the same way when the store reads QUALITY (a missing or unknown name reads as QUALITY), and otherwise leaves the dialog exactly as it was. No feedback. |
| Fields.StoredShade | src/main/java/org/broad/igv/prefs/PreferencesEditor.java:2954-2955 | The stored shading option is the one whose name the store holds; NONE is read only when the store holds "NONE", so a missing or unknown name reads as QUALITY. |
| Fields.EditText | src/main/java/org/broad/igv/prefs/PreferencesEditor.java:2664-2668 | A plain text field stages its text, trimmed when the handler trims, through the ledger's `put`, so the ledger afterwards is exactly `put`'s result: a value equal to the stored one is dropped, and an earlier different edit of that key stays staged; nothing else changes. |
| Fields.EditOverlayAttribute | src/main/java/org/broad/igv/prefs/PreferencesEditor.java:3252-3265 | Focus loss stages the trimmed text and Enter the text as typed, through the ledger's `put`, so the ledger afterwards is exactly `put`'s result: a value equal to the stored one is dropped, and an earlier different edit of that key stays staged; both mark the overlays dirty. |
| Fields.EditProxyText | src/main/java/org/broad/igv/prefs/PreferencesEditor.java:3580-3598 | Proxy host, type and user stage the text as typed through the ledger's `put`, so the ledger afterwards is exactly `put`'s result: a value equal to the stored one is dropped, and an earlier different edit of that key stays staged, and mark the proxy settings dirty. |
| Fields.EditProxyPassword | src/main/java/org/broad/igv/prefs/PreferencesEditor.java:3602-3611 | The encoded password is staged through the ledger's `put`, so the ledger afterwards is exactly `put`'s result: a value equal to the stored one is dropped, and an earlier different edit of that key stays staged, and the proxy settings are marked dirty. |
| Fields.EditWhitelist | src/main/java/org/broad/igv/prefs/PreferencesEditor.java:3562-3578 | The reference form of the text (see `TextForms.Whitelist`) is staged through the ledger's `put`, so the ledger afterwards is exactly `put`'s result: a value equal to the stored one is dropped, and an earlier different edit of that key stays staged, and the proxy settings are marked dirty. |
| Fields.EditHiddenTags | src/main/java/org/broad/igv/prefs/PreferencesEditor.java:3072-3085 | The text's tags joined by ',' plus a final ',' are staged through the ledger's `put`, so the ledger afterwards is exactly `put`'s result: a value equal to the stored one is dropped, and an earlier different edit of that key stays staged. |
| Fields.BrowseProbeFile | src/main/java/org/broad/igv/prefs/PreferencesEditor.java:3664-3671 | A cancelled chooser leaves the dialog as it was; a chosen path is staged through the ledger's `put`, so the ledger afterwards is exactly `put`'s result: a value equal to the stored one is dropped, and an earlier different edit of that key stays staged. |
| Fields.ResetServers | src/main/java/org/broad/igv/prefs/PreferencesEditor.java:3448-3457 | Both server URLs are committed as null, which removes them from the store. |
| Fields.ChooseIgvDirectory | src/main/java/org/broad/igv/prefs/PreferencesEditor.java:2670-2678 | A directory other than the current parent records its "igv" child as the pending move. Anything else changes nothing, and no other field ever changes. |
| Fields.ChooseCramCacheDirectory | src/main/java/org/broad/igv/prefs/PreferencesEditor.java:3791-3798 | The same rule, for the CRAM cache directory. |
| Fields.Apply | src/main/java/org/broad/igv/prefs/PreferencesEditor.java:2581-3802 | No handler writes the store, drops or changes an entry outside its own keys, re-sets validity or clears a dirty flag. Every ledger entry still differs from the store. |
| Fields.Replay | src/main/java/org/broad/igv/prefs/PreferencesEditor.java:2581-3802 | After any sequence of widget interactions, the store is unchanged, validity is never restored, and every newly staged key belongs to an interaction that touched it. The two directory choosers are not interactions of `Replay`; they are covered by their own handlers. |
| FieldLaws.TrimmedFieldAcceptsPaddedNumber | src/main/java/org/broad/igv/prefs/PreferencesEditor.java:2799-2813 | A trimming field given a printed `int` with blank padding stages exactly the printed number when it meets the bound. Otherwise it stages nothing and applies the field's validity rule. |
| FieldLaws.PositiveThresholdsAcceptExactlyPositive | src/main/java/org/broad/igv/prefs/PreferencesEditor.java:2822-2941 | The indel, downsampling-window and count fields accept a printed number exactly when it is positive. Otherwise they warn and clear validity. |
| FieldLaws.ClippingAcceptsExactlyNonNegative | src/main/java/org/broad/igv/prefs/PreferencesEditor.java:2849-2867 | The clipping threshold accepts a printed number exactly when it is not negative. |
| FieldLaws.TriggerMattersOnlyForJunctionFeedback | src/main/java/org/broad/igv/prefs/PreferencesEditor.java:2722-2765 | Enter and focus loss produce the same dialog for every integer field. Only the junction fields differ, and only in their feedback. |
| FieldLaws.TrackHeightReadsChartBox | src/main/java/org/broad/igv/prefs/PreferencesEditor.java:3268-3289 | The default-track-height handler depends only on the chart box and stages that box's text. |
| FieldLaws.TrimmingFieldAcceptsPadding | src/main/java/org/broad/igv/prefs/PreferencesEditor.java:2803-2813 | " 5" is accepted by the mapping-quality field as "5". |
| FieldLaws.PlainFieldRefusesPadding | src/main/java/org/broad/igv/prefs/PreferencesEditor.java:3328-3338 | " 5" is refused by the gene-list flanking field, which does not trim, and validity is cleared. |
| FieldLaws.DbPortAlwaysStagesAPort | src/main/java/org/broad/igv/prefs/PreferencesEditor.java:3647-3661 | Whatever is typed, the committed port parses, and blank text commits "-1". |
| FieldLaws.NegatedBoxRoundTrip | src/main/java/org/broad/igv/prefs/PreferencesEditor.java:2985-2989 | A negated box left as loaded stages nothing; flipped, it commits the opposite of the stored flag. |
| FieldLaws.ShadeTickThenUntickCommitsQuality | src/main/java/org/broad/igv/prefs/PreferencesEditor.java:2945-2963 | With NONE stored, ticking then unticking commits QUALITY, because unticking consults the store and not the ledger. |
| FieldLaws.ProxyToggleBackCommitsStaleValue | src/main/java/org/broad/igv/prefs/PreferencesEditor.java:3513-3521 | With "use proxy" stored true, unticking then re-ticking leaves "false" staged. |
| FieldLaws.ReplayStagesOnlyTouchedChanges | src/main/java/org/broad/igv/prefs/PreferencesEditor.java:2581-3802 | On a new dialog, any widget interactions (the directory choosers aside) stage only genuine changes to keys they touched. |
| Commit.StageColorsDecides | src/main/java/org/broad/igv/prefs/PreferencesEditor.java:3168-3201 | A colour key whose test passes ends up staged with its own chooser's printed colour. A key whose test fails keeps its ledger entry. |
| Commit.StageColors | src/main/java/org/broad/igv/prefs/PreferencesEditor.java:3168-3201 | Staging the variant colours keeps every earlier ledger entry, touches no key outside the colour keys it walks, and keeps the ledger free of no-op entries. |
| Commit.CheckVcfColors | src/main/java/org/broad/igv/prefs/PreferencesEditor.java:3166-3209 | Each colour key is tested against the home-reference chooser. The allele-frequency flag is staged when the radio button differs from the stored flag. Keys outside the variant settings are untouched, and the ledger stays free of no-op entries. |
| Commit.StageFlag | src/main/java/org/broad/igv/prefs/PreferencesEditor.java:3203-3206 | The flag is staged as "true" or "false" exactly when it differs from the stored flag. |
| Commit.Finish | src/main/java/org/broad/igv/prefs/PreferencesEditor.java:128-187 | The store becomes the flushed ledger. OK fails exactly when a port key is staged, the box is ticked and no staged port number parses. Otherwise the listener is kept, halted, or halted and restarted on the staged port; each dirty flag and pending move yields its effect; the Google options follow their staged flags; and the ledger is cleared. |
| Commit.ResetValidation | src/main/java/org/broad/igv/prefs/PreferencesEditor.java:3622-3625 | Validity becomes true and nothing else changes. |
| Commit.Ok | src/main/java/org/broad/igv/prefs/PreferencesEditor.java:125-191 | Invalid input keeps the dialog open with nothing changed but validity, which is re-armed. Valid input commits. Every key outside the variant settings then reads its staged value (a staged null or empty string unsets it), or else its stored one. |
| Commit.Events | src/main/java/org/broad/igv/prefs/PreferencesEditor.java:128-186 | Each event occurs exactly when its dirty flag, pending move or staged value calls for it, with the listener restarted on the staged port and the Google options carrying their staged flags. The events run in the order of OK's body, each at most once, and the refresh always comes last. |
| Commit.Cancel | src/main/java/org/broad/igv/prefs/PreferencesEditor.java:120-123 | Cancel closes the dialog and leaves the store as it is. |
| CommitLaws.OkChangesExactlyStagedKeys | src/main/java/org/broad/igv/prefs/PreferencesEditor.java:125-135 | A valid OK changes exactly the staged keys among the non-variant settings. |
| CommitLaws.EnablingPortWithoutNumberFails | src/main/java/org/broad/igv/prefs/PreferencesEditor.java:137-144 | A staged port-enable with a ticked box and no staged port number makes OK fail after the store has been written with that staged value. |
| CommitLaws.HetVarEditLostWhenStoredMatchesHomRef | src/main/java/org/broad/igv/prefs/PreferencesEditor.java:3174-3178 | When the stored het-var colour equals the home-reference chooser, no het-var colour is staged, whatever the het-var chooser shows. |
| CommitLaws.HetVarEditLostExample | src/main/java/org/broad/igv/prefs/PreferencesEditor.java:3174-3178 | A concrete store and choice where a red het-var choice is lost. |
| CommitLaws.SecondOkCommitsAfterInvalidInput | src/main/java/org/broad/igv/prefs/PreferencesEditor.java:187-190 | A refused OK only re-arms validation, so a second OK commits the same ledger. |
| CommitLaws.CancelAfterEditsKeepsStore | src/main/java/org/broad/igv/prefs/PreferencesEditor.java:120-123 | Cancel after any widget interactions (the directory choosers aside, which never touch the store either) leaves the store as it was when the dialog opened. |
| CommitLaws.ProxyToggleStagesFalse | src/main/java/org/broad/igv/prefs/PreferencesEditor.java:3513-3521 | Unticking and re-ticking "use proxy" leaves exactly "false" staged, with validity kept and the proxy marked dirty. |
| CommitLaws.OkCommitsLoneEdit | src/main/java/org/broad/igv/prefs/PreferencesEditor.java:125-135 | A lone staged edit outside the port and variant settings is committed by a valid OK. |
| CommitLaws.ProxyToggleThenOkCommitsFalse | src/main/java/org/broad/igv/prefs/PreferencesEditor.java:151-154 | After that toggle, OK commits "false" and updates the proxy settings. |
| CommitLaws.EventsHaltBeforeStart | src/main/java/org/broad/igv/prefs/PreferencesEditor.java:137-144 | On restart, the listener is halted immediately before it is started on the staged port. |
| Tabs.FirstMatch | src/main/java/org/broad/igv/prefs/PreferencesEditor.java:3016-3021 | The result indexes a title that matches the name, ignoring case, and no earlier title matches. |
| Tabs.SelectTab | src/main/java/org/broad/igv/prefs/PreferencesEditor.java:3014-3022 | A null name keeps the selection. Otherwise the first title matching the name, ignoring case, is selected; with no match the selection is kept. |
| Tabs.FirstMatchIsFirst | src/main/java/org/broad/igv/prefs/PreferencesEditor.java:3016-3021 | A matching title with no earlier match is the one selected. |
| Tabs.FirstMatchNone | src/main/java/org/broad/igv/prefs/PreferencesEditor.java:3016-3021 | With no matching title, there is no match. |
| Tabs.FirstMatchIgnoresCase | src/main/java/org/broad/igv/prefs/PreferencesEditor.java:3017 | Names that differ only in case select the same tab. |
| TextForms.HiddenTagsStaged | src/main/java/org/broad/igv/prefs/PreferencesEditor.java:3076-3085 | The staged value is the tags joined by ',' plus ',', which is the load-time form plus ','. It ends in ',', holds no blank, re-splits into the same tags, and is "," exactly for text made only of commas and blanks. |
| TextForms.HiddenTagsIdempotent | src/main/java/org/broad/igv/prefs/PreferencesEditor.java:3076-3085 | Staging a staged value again changes nothing. |
| TextForms.HiddenTagsLoadThenStage | src/main/java/org/broad/igv/prefs/PreferencesEditor.java:3904-3910 | Re-staging what the field shows after loading gives the stored value's staged form. |
| TextForms.ShownTags | src/main/java/org/broad/igv/prefs/PreferencesEditor.java:3904-3910 | The load-time form is the stored text's tags joined by ','; null shows as "". |
| TextForms.StagedTags | src/main/java/org/broad/igv/prefs/PreferencesEditor.java:3076-3084 | The staged form is the text's tags joined by ',', followed by a final ','. |
| TextForms.HiddenTagsDropBlanks | src/main/java/org/broad/igv/prefs/PreferencesEditor.java:3078-3083 | "a, b ,,c" stages "a,b,c,": blanks and empty tags are dropped. |
| TextForms.HiddenTagsKeepRepeats | src/main/java/org/broad/igv/prefs/PreferencesEditor.java:3078-3083 | "t t" stages "t,t,": a repeated tag is kept. |
| TextForms.TagsOfJoin | src/main/java/org/broad/igv/prefs/PreferencesEditor.java:3078-3084 | Tags joined by ',', with or without the final ',', re-split into the same tags. |
| TextForms.NoTagsIffBlank | src/main/java/org/broad/igv/prefs/PreferencesEditor.java:3078-3082 | A text has no tags exactly when it consists of commas and blanks only. |
| TextForms.WhitelistMatchesReference | src/main/java/org/broad/igv/prefs/PreferencesEditor.java:3562-3572 | The split-and-append loop equals the reference form. Text without newlines gains one ','. Text of newlines only becomes "". Otherwise trailing newlines are dropped, every other newline becomes ',', and a final ',' is added. |
| TextForms.WhitelistEdgeCases | src/main/java/org/broad/igv/prefs/PreferencesEditor.java:3562-3572 | "" stages ",", "\n" stages "", and "a\nb\n" stages "a,b,". |
| TextForms.Whitelist | src/main/java/org/broad/igv/prefs/PreferencesEditor.java:3562-3570 | The split-and-append loop over the text's lines yields the reference form: text without newlines gains one ',', text of newlines only becomes "", and otherwise trailing newlines are dropped, the other newlines become ',' and a final ',' is added. |
| TextForms.StyleBits | src/main/java/org/broad/igv/prefs/PreferencesEditor.java:2637-2640 | The stored style lies in 0..3, and its bold and italic bits give back the font's flags. |
| TextForms.Describe | src/main/java/org/broad/igv/prefs/PreferencesEditor.java:4004-4014 | For a font whose size is an `int`, the font-field text read back after the family name gives the font's bold, italic and size. |
| TextForms.DescribeInjective | src/main/java/org/broad/igv/prefs/PreferencesEditor.java:4004-4016 | Two fonts of one family with the same font-field text are the same font. |
| JavaInts.ParseInt | src/main/java/org/broad/igv/prefs/PreferencesEditor.java:2803-2813 | `Integer.parseInt` as the integer fields use it: an accepted text is an optional sign followed by digits, and its value fits in 32 bits with the sign it shows. |
| JavaInts.FormatInt | src/main/java/org/broad/igv/prefs/PreferencesEditor.java:2636-2640 | `String.valueOf(int)`: a non-empty text that starts with '-' exactly for a negative number and is digits otherwise. |
| JavaInts.ParseFormatRoundTrip | src/main/java/org/broad/igv/prefs/PreferencesEditor.java:2803-2813 | Every 32-bit number printed and parsed back is the same number. |

## Left out

- Widget construction and layout (`initComponents`) are left out. So are enabling and disabling widgets, and most of `initValues`. Only the hidden-tag load form is modelled.
- The bodies of `moveIGVDirectory` and `moveCramCacheDirectory`, which do file I/O and show dialogs, are left out. OK only records that each move is requested.
- The side effects themselves are recorded only as effects: listener start and halt, overlay reset, proxy update, tooltip update, Google menu, OAuth option and refresh.
- Message boxes are modelled only as the message text or the box to reset; their presentation is left out.
- The file, directory, colour and font choosers are parameters, and their user interaction is not modelled.
- Handlers that write the store directly bypass the ledger, so Cancel does not undo them. They are not modelled: background colour (:2550-2573), font (:2627-2647, except its style bits), clear proxy settings (:3500-3510), `scaleFontsCB` (:3753-3755) and VCF colour reset (:3211-3236).
- The mutation colour editor (:3144-3157) and the constructor's removal of the Database tab (:106-112) are not modelled.
- `Collections.synchronizedMap` is left out: the model is single-threaded.
- Floating-point parsing (`Double.parseDouble` and `Float.parseFloat`) is a caller-supplied parser, because Java's decimal grammar is not modelled.
- Colour parsing and printing (`getAsColor` and `ColorUtilities.colorToString`) are a caller-supplied codec.
- Base64 encoding of the proxy password is left out: the handler receives the encoded text.
- `IGVPreferences`, `Constants` and `CollUtils` are not part of this model, and nor is `ShadeBasesOption` from `AlignmentTrack`. Keys are distinct strings. A missing key reads as null. `getAsBoolean` is `Boolean.valueOf` of the stored text, without the default-value table.
- JavaInts.ParseInt: accepts ASCII digits only, because `Character.digit` also accepts other Unicode digits, which this model does not enumerate.
- JavaStrings.EqualsIgnoreCase: folds ASCII letters only, because Unicode case folding is not modelled.
- Fields.IgvChild: `new File(dir, "igv")` is written as `dir + "/igv"`, without path normalisation.
- The last selected tab is returned as a value instead of being kept in a static field.
- Ledger.Put: staging null for a key the store lacks throws a NullPointerException in Java; the model excludes that call by a precondition. The only caller that stages null, `Fields.ResetServers`, does so for the two server URLs, which IGV's default values always provide, so the requires of `ResetServers` (both URLs stored) is the same assumption.
- Ledger.Flush: only the empty string is treated as unsetting a key. Whether `IGVPreferences.putAll` also unsets for other values (blank text, say) is not known here, because `IGVPreferences` is not part of this model.
- Fields.EditSequenceResolution: single-precision rounding of `Float.parseFloat` (for example "10000.0001" reading as 10000) is left to the supplied parser, not modelled.

## Behaviour of the code worth knowing

- The hidden-tag handler keeps repeated tags (`HiddenTagsKeepRepeats`); it does not remove duplicates.
- Unticking and re-ticking "use proxy" leaves only the use-proxy key staged, with the value "false": the ledger drops the second `put` because it equals the stored value, but keeps the first. OK therefore turns the proxy off (`ProxyToggleThenOkCommitsFalse`).
- Failing fields revert their box as follows:
  - The junction fields revert on their own trigger.
  - The cache-size field always reverts.
  - The visibility-window field resets the junction-flanking box, on Enter only.
  - The sequence-resolution field only warns.
- A failure does not always clear the validity flag. The junction fields, tooltip delays, proxy port, visibility window, cache size and an out-of-range sequence resolution leave it set.
- `checkForVCFColors` compares the home-reference chooser with every stored colour. A colour edit is therefore lost whenever the stored colour for that key equals the home-reference choice (`HetVarEditLostExample`).
- A staged empty string unsets its key when OK writes the ledger; the hidden-tag handler appends a final ',' so that its value is never empty.
