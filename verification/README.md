# Verified model of synology-mcp

synology-mcp drives a Synology NAS over its web API and over SSH. This project models
the parts of it where a wrong step costs data, and proves what they keep.

* **authorized_keys** (`Text`, `Base64`, `Utf8`, `Keys`, `KeySpelling`, `KeyFile`, `KeyRuns`, `Paths`, `KeyTools`,
  `KeyReads`, `KeyToolRuns`): parsing and composing key lines, base64 as in section 4 of RFC 4648, UTF-8 as
  in section 3 of RFC 3629, fingerprints over an uninterpreted 32-byte hash, the add and remove
  tools, and whole runs of them.
* **Commands on the NAS** (`Shell`, `Transport`): a command is a list of steps joined by
  `&&` on a file system; the connection may break after any number of steps, and the SSH
  client then runs the whole command once more. `SshClient` is the client with its one
  cached connection.
* **/proc/mdstat** (`Mdstat`, `MdstatGrammar`, `MdstatBlocks`, `MdstatPrint`): the two-index nested loop
  against a segmentation into paragraphs, and against the layout the kernel prints. The
  four regular expressions are written out as recognisers, with what each accepts.
* **sqlite3 scripts over printf** (`SqlScript`, `PlanJoin`): a SQL literal inside a printf
  format inside a quoted shell word, and the readers that take them apart in order (the
  shell quoting rules are those of XCU sections 2.2.2 and 2.2.1); the join of plans with
  shares.
* **User Home** (`UserHome`, `UserHomeDisable`): the three-signal check, the four-step enable
  with rollback, the guarded disable.
* **Packages, shares, the SSH port** (`Packages`, `Shares`, `Terminal`): tools over a modelled
  NAS, the catalog search, the polling loop, and safety over arbitrary sequences of calls.

Every remote call has an outcome given as a parameter (`Attempts`, `CommandFate`, `WebFate`,
`InstallFates` and so on), so each theorem holds for every pattern of failures. Functions that
change remote or local state in steps are methods on a class (`SshClient`, `Nas`,
`PackageCenter`, `ShareNas`, `TerminalNas`) proved equal to a specification function of the old
state; the properties are then proved of that function. `Seqs` and `Wrappers` are helpers.

## What the code turned out not to do

Each of the first twelve is proved with its exact condition, and shown at a concrete input.

* The command that reads a key file ends in exit status 0 even if it is refused or cut off, as
  when the SSH account is not the session's user and may not look into the home; a call then
  works on what was shown. A reported remove is right exactly under the condition in
  `KeyReads.WhenRemoveIsRight`, and the old entries survive a reported add exactly under that in
  `KeyReads.WhenEntriesSurvive`. Inputs: `KeyReads.RefusedRemoveKeepsAKey`, a removal reported
  with count 0 for a key that stays, and `KeyReads.RefusedAddLosesALine`. What holds of whole
  runs is proved for runs in which each call that wrote had seen every entry.
* A key comment may hold a line break other than LF and CR (a form feed, U+2028, and others
  that `str.splitlines` cuts at). Such a comment becomes several entries: the written line
  reads back as itself if and only if the comment is one line (`KeyFile.AddReadsBack`), and
  add-then-remove cancels under the condition in `KeyFile.AddThenRemove`. Input: the comment
  of `KeyTools.FormFeedSplitsTheLine`.
* For the same reason a run of adds can put a key into the file twice, or a line that does not
  parse. Keys stay pairwise distinct exactly if the later lines of every written comment are no
  keys but new ones, and the unparsed lines stay the same list exactly if none of those lines
  is unparsed (`KeyToolRuns.ToolRunsKeepDistinct`, `KeyToolRuns.ToolRunsKeepUnparsed`). Input:
  `KeyToolRuns.ToolDoublesAKey`, a comment whose second line is the key itself.
* A `%` sign in a script line does not survive `printf`, because `_escape_printf` leaves it
  alone, and a line feed makes two lines of one (`SqlScript.ScriptArrives`: the script arrives if
  and only if its lines have neither). Inputs: the plan id "50%" of `SqlScript.PlanIdIsLost` and
  the plan id of two lines of `SqlScript.PlanIdAddsALine`.
* An mdstat array that is auto-read-only is recorded with "(auto-read-only)" for its level
  unless its level starts with "raid", and an array whose first member's name starts with
  "raid" loses that member to the level (`MdstatPrint.ParseUndoesPrint`: if and only if). Input:
  the linear array of `MdstatPrint.LinearIsMisread`.
* An mdstat array without a level word (an inactive one) loses a member to the level field, and
  is not recognised at all when it has one member (`MdstatPrint.InactiveArray`). Input: the two members of
  `MdstatPrint.InactivePairIsMisread`.
* `packages_install` reports an install that never happened exactly under the condition in
  `Packages.WhenMisreported`. Input: `Packages.ReportedButAbsent`.
* `packages_uninstall` reports an uninstall that never happened exactly under the condition in
  `Packages.WhenUninstallIsMisreported`. Input: `Packages.ReportedButPresent`.
* A share with contents on disk is safe from an unforced delete exactly as long as its probe
  prints something (`Shares.WhenContentsAreRisked`). The probe's exit status is not looked at,
  so a refused sudo, which prints nothing, lets the delete through as a failed connection
  does. Input: `Shares.FailedProbeLosesContents`, for both.
* `ssh_set_port` carries the other settings forward if and only if the answer to `get` had
  all of them (`Terminal.OnlyThePortChanges`). Input: an answer without enable_ssh on a NAS
  that has SSH on (`Terminal.MissingFieldTurnsSshOff`).
* After a failed step 2 or 3 of `user_home_enable` the homes link is back at its prior target
  exactly under the condition in `UserHome.WhenRestored`. Input: a prior link that could not be
  read (`UserHome.UnreadLinkIsLost`).
* An unconfirmed `user_home_disable` does not mean that nobody is cut off. It goes off
  exactly under the condition in `UserHomeDisable.WhenTurnedOff`, which takes any listing
  without a sudo marker at its word, and so cuts a user off exactly under that in
  `UserHomeDisable.WhenOrphaned`, whether it reports that or an error. Input: `find` fails because the pattern, expanded without
  rights to look into the homes, matched nothing (`UserHomeDisable.UnmatchedPatternOrphans`).
* DESIGN.md says of the key file that a line is appended with `>>`; the code rewrites the file
  through a temporary file and a rename, and the model follows the code. Comments and blank
  lines of the file are dropped by a rewrite.
* The cross-user check is skipped when no password is configured, so a remove is then not
  confined to the calling user (`KeyTools.RemoveAuthorizedKey`); an add fails for want of a
  session.

## Model

| member | source | states |
|---|---|---|
| `Base64.RoundTrip` | src/synology_mcp/ssh.py:110-115 | decoding an encoding gives the bytes back, for every byte string |
| `Base64.EncodeUndoes` | src/synology_mcp/ssh.py:110-115 | whatever decodes is symbols and pads, and re-encoding gives the symbols back, save the last one of a partial group |
| `Base64.BodyShape` | src/synology_mcp/ssh.py:131-133 | an encoding is alphabet symbols, as many as the byte count calls for |
| `Base64.StripPadsOfEncode` | src/synology_mcp/ssh.py:131-133 | taking the trailing pads off an encoding leaves exactly the symbols of its bytes |
| `Base64.Alphabet` | src/synology_mcp/ssh.py:131-133 | the alphabet is A-Z, a-z, 0-9, + and /, in this order |
| `Base64.TestVectors` | src/synology_mcp/ssh.py:131-133 | the first vectors of section 10 of RFC 4648 |
| `Keys.ParseOfCompose` | src/synology_mcp/ssh.py:74-122 | parsing a composed key line gives back type, bytes and comment, for every well-formed key |
| `Keys.ParsedIsWellFormed` | src/synology_mcp/ssh.py:74-122 | everything the parser accepts is a well-formed key: known type, non-empty blob, trimmed comment without LF or CR |
| `KeySpelling.WhenParsed` | src/synology_mcp/ssh.py:74-122 | a text is read as a key exactly if it has no LF or CR and spells, with any blanks around and between, a known type, an encoding of non-empty bytes, and the comment or none |
| `Keys.ComposeShape` | src/synology_mcp/ssh.py:456-469 | a composed line is trimmed, does not start with #, and breaks only inside its comment |
| `Keys.FingerprintShape` | src/synology_mcp/ssh.py:125-133 | a fingerprint is the prefix and 43 symbols; the encoded 32-byte digest has exactly one pad |
| `Keys.NormalizeForms` | src/synology_mcp/ssh.py:136-171 | bare, prefixed (in any case), blank-surrounded forms with any pads all normalise to the one canonical string |
| `Keys.WhenAccepted` | src/synology_mcp/ssh.py:136-171 | a text is accepted exactly if, trimmed, it is the prefix or none, 43 symbols and any pads |
| `Keys.NormalizedShape` | src/synology_mcp/ssh.py:136-171 | whatever is accepted comes out as the prefix and a canonical body |
| `Keys.NormalizeIdempotent` | src/synology_mcp/ssh.py:136-171 | normalising a normalised fingerprint changes nothing |
| `Keys.FingerprintIsNormal` | src/synology_mcp/ssh.py:125-171 | the fingerprint a tool reports is accepted unchanged by the remove tool |
| `KeyFile.SplitAuthorizedKeys` | src/synology_mcp/ssh.py:293-306 | the loop returns the trimmed, non-blank, non-# lines in order |
| `KeyFile.EntriesAreEntries` | src/synology_mcp/ssh.py:293-306 | every entry read is a trimmed single line |
| `KeyFile.EntriesOfJoin` | src/synology_mcp/ssh.py:293-313 | splitting undoes joining, for every list of entries |
| `KeyFile.JoinStep` | src/synology_mcp/ssh.py:309-313 | the text of a list of entries is each of them closed by a line feed |
| `Text.LineEnds` | src/synology_mcp/ssh.py:301 | every break ends a line, and a carriage return with its line feed ends it once |
| `Text.Breaks` | src/synology_mcp/ssh.py:301 | the characters that end a line |
| `KeyFile.FindFingerprint` | src/synology_mcp/ssh.py:478-496 | the scan finds a key exactly if some entry parses to that fingerprint |
| `KeyFile.DropFingerprint` | src/synology_mcp/ssh.py:543-558 | the scan keeps exactly the other entries, in order, and counts the dropped ones |
| `KeyFile.AddReadsBack` | src/synology_mcp/ssh.py:453-498 | after an add the entries are the old ones and the new line, if and only if the comment is one line |
| `KeyTools.FormFeedSplitsTheLine` | src/synology_mcp/ssh.py:453-498 | with a form feed in its comment, a new key passes every check, does not read back, and leaves a line behind when removed |
| `KeyTools.FormFeedSplitsAFile` | src/synology_mcp/ssh.py:453-498 | there are a key and a file for which that happens |
| `KeyFile.AddThenRemove` | src/synology_mcp/ssh.py:453-564 | exactly when add then remove restores the entries, and exactly when it removes one entry |
| `KeyFile.AddThenRemoveCancels` | src/synology_mcp/ssh.py:453-564 | for one-line comments add then remove restores the entries and removes one |
| `KeyFile.RepeatedAdd` | src/synology_mcp/ssh.py:476-498 | repeating an add leaves the file text as it is |
| `KeyFile.RepeatedRemove` | src/synology_mcp/ssh.py:543-564 | repeating a remove leaves the file text as it is, and no entry with the fingerprint remains |
| `KeyRuns.SurvivorsKeepTheirOrder` | src/synology_mcp/ssh.py:478-564 | over any run, entries whose fingerprint nobody removes, and unparsed ones, stay, once each, in order, in front of anything new |
| `KeyRuns.UnparsedStay` | src/synology_mcp/ssh.py:478-498 | over any run, unparsed lines are never lost, doubled or reordered, and stay the same list exactly if no written comment has one in its later lines |
| `KeyRuns.DistinctKeysStayDistinct` | src/synology_mcp/ssh.py:478-498 | pairwise distinct fingerprints stay distinct all through a run exactly if the later lines of every written comment are no keys but new ones |
| `KeyRuns.OneLinersKeepLines` | src/synology_mcp/ssh.py:478-498 | with one-line comments both hold over any run |
| `KeyRuns.OneAddDoublesAKey` | src/synology_mcp/ssh.py:456-498 | for any key, a comment with which one add to an empty file leaves the key in it twice |
| `Shell.AtomicReplace` | src/synology_mcp/ssh.py:258-290 | cut off after any step, the target is untouched or holds exactly the new text, and only the temp file besides has changed |
| `Shell.ReplaceRun` | src/synology_mcp/ssh.py:273-279 | the whole write puts exactly the new text there, readable by the owner only, with the temp file gone, whatever that held before |
| `Shell.SetupRun` | src/synology_mcp/ssh.py:226-233 | the set-up sets the two modes, creates what is missing, and keeps an existing file's contents |
| `Shell.ReplaceIsReplayable` | src/synology_mcp/ssh.py:273-279 | any prefix of the write and then the whole write end in the state of one write |
| `Shell.SetupIsReplayable` | src/synology_mcp/ssh.py:226-233 | the same for the directory set-up |
| `Shell.SwapIsReplayable` | src/synology_mcp/user_home.py:328-331 | the same for the homes-link swap |
| `Shell.SetKeyIsReplayable` | src/synology_mcp/user_home.py:307-310 | the same for the synoinfo write |
| `Transport.RunIsBounded` | src/synology_mcp/transport/ssh.py:115-148 | at most two executions and two connects; nothing executed exactly if the first connect fails |
| `Transport.WhenRunTwice` | src/synology_mcp/transport/ssh.py:115-148 | two executions exactly if the first was made and broke and the second connect works, none exactly without a connection, and how many connects |
| `Transport.RunAnswers` | src/synology_mcp/transport/ssh.py:115-148 | what the caller gets and where the NAS is left: the ending of the execution that did not break, with a bad status raised exactly if the caller checks, or the error of what went wrong last |
| `Transport.RetrySucceeds` | src/synology_mcp/transport/ssh.py:115-131 | a replayable command that breaks on a stale connection and completes on the new one gives what one run gives |
| `Transport.RunCache` | src/synology_mcp/transport/ssh.py:94-152 | a return or an exit-status error leaves the client that ran the command cached, every other error leaves none |
| `Transport.RetryIsHarmless` | src/synology_mcp/transport/ssh.py:115-148 | a replayable command that ended by itself, on either attempt, did what one run does |
| `Transport.RunReaches` | src/synology_mcp/transport/ssh.py:115-148 | whatever fails, the NAS is where one or two cut-off executions leave it |
| `Transport.ReplaceOverSsh` | src/synology_mcp/ssh.py:258-290 | over the retrying client: old contents or exactly the new ones, the new ones on success, nothing else but the temp file touched |
| `Transport.SshClient.Close` | src/synology_mcp/transport/ssh.py:55-59 | the cache is empty, nothing else changed |
| `Transport.SshClient.EnsureClient` | src/synology_mcp/transport/ssh.py:94-101 | a cached client is used as it is; else one connect, cached only if it works |
| `Transport.SshClient.Run` | src/synology_mcp/transport/ssh.py:103-152 | the retry loop does what two attempts in sequence do, to the cache and to the NAS |
| `Paths.PathsApart` | src/synology_mcp/ssh.py:179-216 | no key file of one valid user is a key file of another |
| `Paths.PathsAre` | src/synology_mcp/ssh.py:205-216 | the directory, key file and temp file of a user |
| `Paths.UserOfHomePath` | src/synology_mcp/user_home.py:560-565 | the user read off any path under a home is that home's user |
| `Paths.WhenUserOf` | src/synology_mcp/user_home.py:560-565 | a path names a user exactly if its fourth segment is homes and its fifth that user |
| `KeyTools.EnsureSshDir` | src/synology_mcp/ssh.py:219-239 | touches only the directory and the key file, never what the file reads as; success leaves them at modes 700 and 600; works on a fitting home if nothing fails |
| `KeyTools.ReadAuthorizedKeys` | src/synology_mcp/ssh.py:242-255 | returns an error or what the command showed, the whole text or anything else, and changes nothing |
| `KeyTools.PayloadArrives` | src/synology_mcp/ssh.py:271-276 | what base64 -d and UTF-8 make of the payload is exactly the text to write |
| `Utf8.TextRoundTrip` | src/synology_mcp/ssh.py:271-276 | reading UTF-8 undoes writing it, for every text |
| `Utf8.Examples` | src/synology_mcp/ssh.py:271 | an encoding of each length |
| `KeyTools.WriteAuthorizedKeys` | src/synology_mcp/ssh.py:258-290 | old contents or exactly the new ones, the new ones at mode 600 on success; no error if nothing fails; the temp file is gone after a failed command whose clean-up goes through |
| `KeyTools.WhichComment` | src/synology_mcp/ssh.py:456-469 | the key's own comment if the caller gives none, else the caller's trimmed, refused with a line feed or carriage return in it |
| `KeyTools.OwnComment` | src/synology_mcp/ssh.py:453-469 | a line the tool wrote, added again without a comment, is that key |
| `KeyReads.AddedEntryReads` | src/synology_mcp/ssh.py:453-498 | the entry a reported add appends reads as the key that was given with that comment |
| `KeyTools.WhenAddRefused` | src/synology_mcp/ssh.py:395-469 | which check refuses an add, each exactly when those before it do not |
| `KeyTools.WhenRemoveRefused` | src/synology_mcp/ssh.py:515-540 | the same for remove |
| `KeyTools.AddAuthorizedKey` | src/synology_mcp/ssh.py:395-508 | the answer of the first failing check, with no change; else the old text, or what was seen of it with the key, and which of them the answer says; only the session user's own files, only with a password and User Home on; goes through if nothing fails |
| `KeyTools.RemoveAuthorizedKey` | src/synology_mcp/ssh.py:515-574 | the same for remove: the old text, or what was seen of it without the key, with the count of what was seen; a count of 0 writes nothing |
| `KeyToolRuns.FrameOverRuns` | src/synology_mcp/ssh.py:340-387 | over any run of adds and removes, no file of a user changes whom no call names or whom the cross-user check protects |
| `KeyToolRuns.OnlyTheSessionsUser` | src/synology_mcp/ssh.py:340-387 | with a password, over any run, no file of any user but the session's changes |
| `KeyToolRuns.ToolRunsAreKeyRuns` | src/synology_mcp/ssh.py:395-574 | over any run in which the calls that wrote a user's file had seen every entry, what becomes of it is a run of key calls, each made by a tool call on that user |
| `KeyToolRuns.ToolRunsKeepSurvivors` | src/synology_mcp/ssh.py:478-564 | over such a run, unparsed entries and those nobody asks to remove keep their number and order, in front of anything new |
| `KeyToolRuns.ToolRunsKeepUnparsed` | src/synology_mcp/ssh.py:478-564 | over such a run, unparsed lines are never lost, doubled or reordered, and stay the same list exactly if no comment written leaves one behind |
| `KeyToolRuns.ToolRunsKeepDistinct` | src/synology_mcp/ssh.py:478-564 | over such a run, distinct keys are distinct in every state exactly if every comment written fits the file it is written to |
| `KeyToolRuns.ToolRunsKeepLines` | src/synology_mcp/ssh.py:478-564 | with one-line comments both hold over such a run |
| `KeyToolRuns.ToolDoublesAKey` | src/synology_mcp/ssh.py:453-498 | a key and a comment that pass every check and leave the key in the file twice |
| `KeyReads.WhenEntriesSurvive` | src/synology_mcp/ssh.py:242-255 | whatever was shown: the old entries are all in front after a reported add exactly if they were shown, or the hidden ones are those that the add appends |
| `KeyReads.WhenKeyStays` | src/synology_mcp/ssh.py:543-574 | whatever was shown: a key whose removal is reported is still there exactly if it was there and not shown |
| `KeyReads.WhenOthersSurvive` | src/synology_mcp/ssh.py:543-574 | whatever was shown: the entries with other keys are the same after a reported remove exactly if nothing was written or the same ones were shown |
| `KeyReads.WhenRemoveIsRight` | src/synology_mcp/ssh.py:543-574 | whatever was shown: exactly when a reported remove is right in count and effect |
| `KeyReads.RefusedAdd` | src/synology_mcp/ssh.py:242-255 | after a refused read an add is reported, and old entries survive exactly if there were none but the key's own line |
| `KeyReads.RefusedAddUnparsed` | src/synology_mcp/ssh.py:242-255 | and unparsed lines survive exactly if there were none |
| `KeyReads.RefusedRemove` | src/synology_mcp/ssh.py:242-255 | after a refused read a remove reports a count of 0 and writes nothing, which is right exactly if the key is not there |
| `KeyReads.RefusedRemoveKeepsAKey` | src/synology_mcp/ssh.py:560-562 | a file and a key for which that is wrong |
| `KeyReads.RefusedAddLosesALine` | src/synology_mcp/ssh.py:497-508 | a file that a reported add rewrites without its old entry |
| `KeyReads.AddThenRemoveOverSsh` | src/synology_mcp/ssh.py:395-574 | an add that saw every entry and a remove of the reported fingerprint, both reported: the entries are restored with one removed exactly if the second read showed as many entries, the key, and the same others |
| `KeyReads.WholeReadsCancel` | src/synology_mcp/ssh.py:395-574 | and so always after whole reads |
| `Mdstat.ReadMembers` | src/synology_mcp/raid.py:240-250 | the loop returns the members the tokens match, in order |
| `Mdstat.ParseLines` | src/synology_mcp/raid.py:219-307 | the nested loops compute the paragraph segmentation, and terminate |
| `Mdstat.ParseMdstat` | src/synology_mcp/raid.py:213-307 | the same from the text |
| `Mdstat.OneRecordPerHeader` | src/synology_mcp/raid.py:222-251 | one record for each header line, in order, each with its own header's device, level and members |
| `Mdstat.LastStatusIsLast` | src/synology_mcp/raid.py:261-268 | the status is that of the last line of the paragraph that has one |
| `Mdstat.LastProgressIsLast` | src/synology_mcp/raid.py:269-282 | the progress fields are those of the last line of the paragraph that has any |
| `Mdstat.WhenFirstKeyword` | src/synology_mcp/raid.py:276-280 | which keyword counts on a progress line |
| `Mdstat.DecimalIs` | src/synology_mcp/raid.py:270-274 | a number with one dot is its whole and its part behind the dot |
| `Mdstat.DotsRaise` | src/synology_mcp/raid.py:270-274 | one with more dots raises |
| `Mdstat.SecondsAre` | src/synology_mcp/raid.py:274 | finish=N.Fmin is 60 N seconds and those of the part, rounded down |
| `Mdstat.ParagraphIsMaximal` | src/synology_mcp/raid.py:260-264 | a paragraph holds no blank line or header and ends at one or at the end |
| `Mdstat.Classes` | src/synology_mcp/raid.py:203-210 | the character classes, flags and keywords of the patterns |
| `MdstatGrammar.WhenHeader` | src/synology_mcp/raid.py:200-202 | a line is a header exactly if it is md and a number, a colon with any blanks before it, and at least three words |
| `MdstatGrammar.WhenIndexAt` | src/synology_mcp/raid.py:203 | an index is a number in brackets |
| `MdstatGrammar.WhenFlagAt` | src/synology_mcp/raid.py:203 | a flag is F, S or R in parentheses |
| `MdstatGrammar.WhenMemberFound` | src/synology_mcp/raid.py:203 | a token is a member exactly if it has an index behind a character or more, read at the first one |
| `MdstatGrammar.WhenStatusAt` | src/synology_mcp/raid.py:210 | a status is U and _ in brackets |
| `MdstatGrammar.WhenStatusFound` | src/synology_mcp/raid.py:210 | a line has a status exactly if there is one at some place, and it is that at the first |
| `MdstatGrammar.WhenBar` | src/synology_mcp/raid.py:204-205 | a progress report is a bar in brackets, a keyword in any case, and what follows |
| `MdstatGrammar.WhenPercent` | src/synology_mcp/raid.py:205-206 | the keyword is followed by an equals sign, a number and a percent sign |
| `MdstatGrammar.WhenDone` | src/synology_mcp/raid.py:206 | that by the part done |
| `MdstatGrammar.WhenTotal` | src/synology_mcp/raid.py:206 | that by the total |
| `MdstatGrammar.WhenFinish` | src/synology_mcp/raid.py:207 | that by the minutes left |
| `MdstatGrammar.WhenSpeed` | src/synology_mcp/raid.py:207 | and that by the speed; the captures are exactly these parts |
| `MdstatGrammar.WhenResyncFound` | src/synology_mcp/raid.py:204-208 | a line has a report exactly if there is one at some place, and it is that at the first |
| `MdstatBlocks.ParseConcat` | src/synology_mcp/raid.py:213-307 | parsing A, a blank line and B gives the records of A, then those of B |
| `MdstatPrint.ParseUndoesPrint` | src/synology_mcp/raid.py:200-307 | what parsing makes of any printed list of active and inactive arrays; it gives back device, level, members, status, progress and state of each exactly if each is active and its level is told from the words around it |
| `MdstatPrint.HeaderAnyBlanks` | src/synology_mcp/raid.py:200-202 | a header reads the same with any blanks, or none, around its colon |
| `MdstatPrint.WhenLevelTold` | src/synology_mcp/raid.py:231-251 | that condition for one array: behind the read-only word a level that starts with raid or is that word, else a first member that does not start with raid |
| `MdstatPrint.LinearIsMisread` | src/synology_mcp/raid.py:231-238 | a printed read-only linear array is recorded with the read-only word for its level |
| `MdstatPrint.InactiveArray` | src/synology_mcp/raid.py:200-307 | exactly what parsing makes of a text with one array printed without a level word, which is never that array |
| `MdstatPrint.InactivePairIsMisread` | src/synology_mcp/raid.py:200-307 | an inactive array of two members is recorded with the second member only |
| `SqlScript.BuildPayload` | src/synology_mcp/snapshot_replication.py:406-418 | the loop builds the payload of the mode lines, one line per parameter, and the statement |
| `SqlScript.ShellUndoes` | src/synology_mcp/snapshot_replication.py:419-451 | the shell reads the quoted word back as the word, and stops behind it |
| `SqlScript.PrintfUndoes` | src/synology_mcp/snapshot_replication.py:418-451 | printf prints the script text if and only if no line has a % sign |
| `SqlScript.ReadLinesUndoes` | src/synology_mcp/snapshot_replication.py:415-418 | the text is read line by line if and only if no line holds a line feed |
| `SqlScript.ScriptArrives` | src/synology_mcp/snapshot_replication.py:406-451 | shell word, printf and line reading together give back the script lines, if and only if none holds a % sign or a line feed |
| `SqlScript.PercentIsLost` | src/synology_mcp/snapshot_replication.py:441-471 | a text parameter with a % sign spoils the script, whatever printf does with the sign |
| `SqlScript.PlanIdIsLost` | src/synology_mcp/snapshot_replication.py:441-471 | the plan id 50% is such a parameter |
| `SqlScript.FeedIsLost` | src/synology_mcp/snapshot_replication.py:441-471 | a text parameter with a line feed spoils the script too |
| `SqlScript.PlanIdAddsALine` | src/synology_mcp/snapshot_replication.py:441-471 | a plan id of two lines arrives as two script lines |
| `SqlScript.BranchesAgree` | src/synology_mcp/snapshot_replication.py:467-471 | both branches of the quoting write the same literal |
| `SqlScript.QuoteUndone` | src/synology_mcp/snapshot_replication.py:454-471 | reading the literal gives the text back, whatever characters it has |
| `SqlScript.ParameterArrives` | src/synology_mcp/snapshot_replication.py:406-471 | end to end, the parameter line arrives at its place and its SQL literal denotes the original text |
| `SqlScript.QueryArrives` | src/synology_mcp/snapshot_replication.py:406-471 | end to end: sqlite3 reads the two mode commands, a command for each parameter in order whose literal denotes its value, and the statement closed by exactly one semicolon, however the query ended |
| `SqlScript.StatementIs` | src/synology_mcp/snapshot_replication.py:415-417 | trailing blanks and semicolons of a query become one semicolon |
| `SqlScript.QuoteDenotes` | src/synology_mcp/snapshot_replication.py:454-471 | the literal written for a truth value, an integer, a number or a text denotes it |
| `PlanJoin.ShareLookup` | src/synology_mcp/snapshot_replication.py:489-494 | the table holds for each plan the last row with both ids, and no other plan |
| `PlanJoin.ListPlans` | src/synology_mcp/snapshot_replication.py:474-498 | one plan per row, in order, with the share of the last usable row or none; failed queries give no plans or plans without shares |
| `UserHome.EveryRunIsFated` | src/synology_mcp/transport/ssh.py:103-152 | every run of a replayable command over the retrying client is one of the outcomes the saga is proved for |
| `UserHome.StepsAreReplayable` | src/synology_mcp/user_home.py:307-373 | the commands of the enable steps are replayable |
| `UserHome.WhenFoundEnabled` | src/synology_mcp/user_home.py:62-88 | the check finds User Home on exactly if the web flag, synoinfo and a homes link all say so and some call that tells each answers |
| `UserHome.WhenStepsFail` | src/synology_mcp/user_home.py:284-365 | exactly when steps 1-3 are skipped, which step fails, and when the call succeeds |
| `UserHome.WhenPartial` | src/synology_mcp/user_home.py:367-424 | exactly when a success is partial |
| `UserHome.Nas.RestoreSymlink` | src/synology_mcp/user_home.py:427-457 | the link after the restoring command, and how it is reported |
| `UserHome.Nas.UserHomeEnable` | src/synology_mcp/user_home.py:246-424 | the world and the envelope of one call, for every pattern of failures |
| `UserHome.RollbackRestores` | src/synology_mcp/user_home.py:328-365 | a failure at step 2 or 3 with a prior link and a working restore leaves the link at its prior target, the synoinfo flag set, and nothing else changed |
| `UserHome.WhenRestored` | src/synology_mcp/user_home.py:328-365 | exactly when the link is at its prior target after a failed step 2 or 3 |
| `UserHome.UnreadLinkIsLost` | src/synology_mcp/user_home.py:189-205 | a concrete call in which a prior link that could not be read is not restored |
| `UserHome.WhenReportedRestored` | src/synology_mcp/user_home.py:427-457 | how the rollback is reported: nothing to restore exactly if no prior link was read, else restored exactly if the command ran to its end |
| `UserHome.WebAfterTheOthers` | src/synology_mcp/user_home.py:306-365 | the web set is sent at most once, exactly if step 3 ran, and only after this call's steps 1 and 2 succeeded; nothing else moves the flag |
| `UserHome.AuditReads` | src/synology_mcp/user_home.py:288-424 | the audit is numbered 1..k with every entry but possibly the last ok, k is 4 exactly on success, a failure ends in the failed step, the skipped list is that of the skipped entries |
| `UserHome.EnableEnables` | src/synology_mcp/user_home.py:48-113 | after any success the web flag, synoinfo and the homes link all say on, and a check whose calls answer finds that |
| `UserHome.EnableLinks` | src/synology_mcp/user_home.py:208-424 | a success that ran step 2 leaves the link at the configured volume's homes, else at the directory that was found, else at the first volume's; one without warning leaves the user's folder there |
| `UserHome.EnableTouches` | src/synology_mcp/user_home.py:246-457 | whatever fails, only the synoinfo file, the link and the user's folder are touched |
| `UserHome.WhatFailuresLeave` | src/synology_mcp/user_home.py:306-365 | a failed step 1 leaves all but synoinfo alone, a failed step 2 never asks the web API, and a rollback reported as done leaves the prior link |
| `UserHome.SecondCallSkips` | src/synology_mcp/user_home.py:284-304 | after a success a second call skips steps 1-3 and changes none of the signals |
| `UserHomeDisable.NamedUsers` | src/synology_mcp/user_home.py:555-565 | the loop names the user of every listed path, in order |
| `UserHomeDisable.DedupInOrder` | src/synology_mcp/user_home.py:566-573 | the loop computes the first occurrences |
| `UserHomeDisable.DedupShape` | src/synology_mcp/user_home.py:566-573 | nobody lost, nobody twice, in the order of first occurrence |
| `UserHomeDisable.ListingReadsBack` | src/synology_mcp/user_home.py:543-573 | the listing of any users' key files reads back as those users |
| `UserHomeDisable.WhenSudoFailed` | src/synology_mcp/user_home.py:543-552 | the probe counts as refused exactly if it failed, at any exit status, and its error output has one of sudo's phrases, in any case |
| `UserHomeDisable.SudoIsRequired` | src/synology_mcp/user_home.py:631-655 | unconfirmed, every such output is answered with sudo_required and nothing is changed |
| `UserHomeDisable.WhenAnswered` | src/synology_mcp/user_home.py:611-698 | exactly when each answer is given, and what is changed with it |
| `UserHomeDisable.TurnOff` | src/synology_mcp/user_home.py:576-698 | the world and the answer of one disable call |
| `UserHomeDisable.WhenTurnedOff` | src/synology_mcp/user_home.py:613-680 | exactly when the web API is asked to switch off: enabled, answered, and confirmed or neither a sudo failure nor anybody listed; no file changes |
| `UserHomeDisable.WhenOrphaned` | src/synology_mcp/user_home.py:613-680 | exactly when an unconfirmed call leaves User Home switched off although a given user has keys, whatever it reports |
| `UserHomeDisable.UnmatchedPatternOrphans` | src/synology_mcp/user_home.py:543-573 | for any user, a NAS where that user has a key and an unconfirmed call goes off, because find failed on an unmatched pattern; also if the web API takes effect and then raises |
| `UserHomeDisable.NobodyIsOrphaned` | src/synology_mcp/user_home.py:627-674 | unconfirmed, with a complete listing, it goes off exactly if no user in reach has keys, and else names exactly those that do |
| `Packages.PollInstallTask` | src/synology_mcp/packages.py:611-651 | at most 150 queries and 300 seconds of sleep; the first terminal body, or else the last body before the error or timeout |
| `Packages.WhenTerminal` | src/synology_mcp/packages.py:644-648 | which body ends the polling |
| `Packages.FetchServerCatalogRow` | src/synology_mcp/packages.py:654-687 | the nested loop returns the first match of the main pool followed by the beta pool |
| `Packages.FirstMatchIs` | src/synology_mcp/packages.py:677-687 | that is the entry at the least matching position, and none exactly if no entry matches |
| `Packages.MainPoolFirst` | src/synology_mcp/packages.py:671-676 | the entries are those of the main pool, then those of the beta pool |
| `Packages.WhenMatches` | src/synology_mcp/packages.py:677-685 | an entry is of a package exactly if it has its name, or no name and its id |
| `Packages.PayloadTells` | src/synology_mcp/packages.py:690-720 | equal payloads come from rows that agree on everything the NAS is told to fetch |
| `Packages.PayloadSays` | src/synology_mcp/packages.py:690-720 | what the NAS is told under each name |
| `Packages.PackageCenter.PackagesInstall` | src/synology_mcp/packages.py:723-920 | packages, requests and answer of one install call; the task is polled exactly if the request was accepted with one |
| `Packages.WhenInstallIsRefused` | src/synology_mcp/packages.py:761-841 | exactly when each refusal before a request is given |
| `Packages.WhenInstallIsReported` | src/synology_mcp/packages.py:843-920 | exactly when each answer to a request is given |
| `Packages.PackageCenter.PackagesUninstall` | src/synology_mcp/packages.py:923-1010 | the same for uninstall |
| `Packages.WhenUninstallAnswers` | src/synology_mcp/packages.py:946-1010 | exactly when each answer is given |
| `Packages.WhenInstallIsSent` | src/synology_mcp/packages.py:767-853 | a request goes out exactly if the package is absent and the first catalog entry's version fits, with that entry's payload; else nothing changes |
| `Packages.WhenUninstallIsSent` | src/synology_mcp/packages.py:952-992 | a request goes out exactly for an installed package that is not denylisted or is forced; else nothing changes |
| `Packages.WhenMisreported` | src/synology_mcp/packages.py:843-920 | an install of an absent package is reported exactly if the request was sent and accepted, the licence blank or agreed to, the request without effect, and the last look-up no error |
| `Packages.WhenUninstallIsMisreported` | src/synology_mcp/packages.py:952-1010 | an uninstall of a package that is still there is reported exactly if it was found installed, the request allowed and answered, and without effect |
| `Packages.ReportedButPresent` | src/synology_mcp/packages.py:986-1010 | a concrete call that reports an uninstall that did not happen |
| `Packages.VersionGivesItAway` | src/synology_mcp/packages.py:906-920 | with look-ups that can be relied on, it is the report without a version |
| `Packages.ReportedButAbsent` | src/synology_mcp/packages.py:906-920 | a concrete call that reports an install that did not happen |
| `Packages.InstalledStays` | src/synology_mcp/packages.py:767-796 | over any run, a package no call may remove stays, and at its version if the look-ups can be relied on |
| `Packages.DenylistedStays` | src/synology_mcp/packages.py:507-533 | over any run without a forced uninstall, nothing on the denylist is lost |
| `Packages.DeniedIsNeverSent` | src/synology_mcp/packages.py:952-965 | over such a run no uninstall of it is ever requested |
| `Packages.OthersUntouched` | src/synology_mcp/packages.py:844-992 | a package no call names is left as it is |
| `Packages.RepeatsAreNoops` | src/synology_mcp/packages.py:768-796 | a second install after one that took effect asks nothing of the NAS |
| `Packages.UninstallTwice` | src/synology_mcp/packages.py:967-992 | an uninstall removes exactly its package and repeats as a no-op |
| `Shares.ReservedInAnyCase` | src/synology_mcp/shares.py:375-386 | whether a name is reserved does not depend on its case |
| `Shares.WhenReserved` | src/synology_mcp/shares.py:343-386 | which names are reserved |
| `Shares.FindExistingShare` | src/synology_mcp/shares.py:388-393 | the first row with the name, none exactly if there is no such row |
| `Shares.RowsAre` | src/synology_mcp/shares.py:104-109 | the shares of an answer are its readable rows, in order, and none if it has no list |
| `Shares.ShareConfigCompatible` | src/synology_mcp/shares.py:396-427 | compatible exactly if the three settings agree, with the list of those that differ |
| `Shares.MismatchesTell` | src/synology_mcp/shares.py:396-427 | the list has each differing setting once and nothing else, and is empty exactly for a compatible share |
| `Shares.ProbeReadsSize` | src/synology_mcp/shares.py:588-618 | the printed size of a directory reads back as that size |
| `Shares.ProbeReadsFirstLine` | src/synology_mcp/shares.py:603-618 | the size is read off the first line, whatever follows it |
| `Shares.SignedSizes` | src/synology_mcp/shares.py:614-617 | a sign before a printed number counts |
| `Shares.ShareNas.SharesCreate` | src/synology_mcp/shares.py:438-585 | table, requests and answer of one create call |
| `Shares.ShareNas.SharesDelete` | src/synology_mcp/shares.py:621-704 | the same for delete |
| `Shares.WhenCreateIsSent` | src/synology_mcp/shares.py:473-561 | a create is sent exactly for a free, unreserved name with valid parameters; a refused one changes nothing |
| `Shares.ReportedAsStored` | src/synology_mcp/shares.py:537-585 | what a create reports is what the stored share normalises to, and that is compatible with the request |
| `Shares.StoredAsAsked` | src/synology_mcp/shares.py:68-101 | each setting is stored as it was asked for, the passphrase only with encryption, and reads back so |
| `Shares.WhenCreateAnswers` | src/synology_mcp/shares.py:473-585 | exactly when each answer to a create is given |
| `Shares.WhenDeleteAnswers` | src/synology_mcp/shares.py:643-704 | exactly when each answer to a delete is given |
| `Shares.CreateTwice` | src/synology_mcp/shares.py:504-519 | repeating a create that took effect asks nothing and finds the stored share |
| `Shares.WhenDeleteIsSent` | src/synology_mcp/shares.py:649-687 | whatever list and probe say: a delete goes out exactly for a listed name, forced or without a probed size above 0, and is refused as not empty exactly otherwise |
| `Shares.WhenContentsAreRisked` | src/synology_mcp/shares.py:588-680 | an unforced delete of a share with contents on disk goes out exactly if its probe failed or printed nothing |
| `Shares.ContentsAreSafe` | src/synology_mcp/shares.py:660-687 | over any run of creates and unforced deletes, whatever is answered, a share whose probed size is positive is never removed or altered |
| `Shares.ContentsOnDiskAreSafe` | src/synology_mcp/shares.py:588-687 | over any run, a share with contents on disk stays, as long as the probes for it print the size and nobody empties it |
| `Shares.FailedProbeLosesContents` | src/synology_mcp/shares.py:603-668 | for a failed probe and for one that prints nothing, a call in which a share with contents is lost |
| `Shares.NoReservedIsCreated` | src/synology_mcp/shares.py:488-503 | over any run, whatever is answered, no reserved name enters the table |
| `Shares.WhenNamesStayDistinct` | src/synology_mcp/shares.py:504-561 | whatever is answered: share names stay distinct all through a run exactly if no create that takes effect is of a name in the table |
| `Shares.NamesStayDistinct` | src/synology_mcp/shares.py:504-561 | that is so in every run in which each list shows the table or fails |
| `Terminal.TerminalSetPayload` | src/synology_mcp/ssh.py:785-813 | each parameter is sent as the answer has it, left out if the answer leaves it out, and the port is the new one |
| `Terminal.OnlyThePortChanges` | src/synology_mcp/ssh.py:785-813 | whatever a set resets, only the port changes if and only if the answer was complete |
| `Terminal.MissingFieldTurnsSshOff` | src/synology_mcp/ssh.py:785-813 | on a NAS with SSH on, a full answer is carried forward, and the same answer without enable_ssh turns SSH off |
| `Terminal.TerminalNas.SshSetPort` | src/synology_mcp/ssh.py:877-982 | when a set is sent, the record after it, and exactly when each answer is given |
| `Terminal.WhenSends` | src/synology_mcp/ssh.py:724-782 | exactly for a permitted port, not the current one, on which neither ss nor, if that raises, netstat showed a row |
| `Terminal.RunMovesOnlyThePort` | src/synology_mcp/ssh.py:877-982 | over any run on full answers nothing but the port changes, and it is that of the last accepted call |
| `Terminal.PortStaysPermitted` | src/synology_mcp/ssh.py:724-752 | over any run, whatever is answered, the port stays permitted, and 22 only if it was or a call allowed it |

## Left out

- `Keys.NormalizeFingerprint`: letter case is that of ASCII letters.
- `Keys.Fingerprint`: SHA-256 is an uninterpreted function to 32 bytes; nothing is claimed about collisions.
- `Base64.Decode`: follows the strict decoder of Python 3.11, including that it lets pads behind a whole group through.
- `Utf8.DecodeText`: reads what the encoder writes; it does not refuse every malformed input. A file is taken as its text, so bytes that are no text are not modelled.
- `Paths.ValidUsername`: `str.isalnum` is a parameter, of which only is assumed that slashes and blanks are not alphanumeric.
- `Mdstat.ParseMdstat`: digits and letter case are ASCII ones, where the regular expressions take any Unicode digit and fold case; percentages and times are exact decimals, not floats.
- `MdstatPrint.ParseUndoesPrint`: arrays have at least one member, with names without brackets. A paragraph has the detail line and, of an active array, at most a progress line; lines such as "bitmap:" or "resync=DELAYED" are not printed.
- `Shell.AtomicReplace`: the pipeline that decodes into the temp file writes it character by character; a decoder that fails halfway counts as a command that stops early. Parent directories, owners and a rename onto a directory's inside are not modelled.
- `KeyTools.AddAuthorizedKey`: a login that fails inside the cross-user check is not modelled.
- `Transport.ReplaceOverSsh`: the two executions of a retried command follow each other. After a timeout the first may still be running while the second truncates the same temp file; atomicity is not claimed there.
- `Transport.SshClient.Run`: calls are sequential; two coroutines that find the cache empty at once may both connect. Timeouts, keepalive and output decoding are not modelled.
- `SqlScript.ParameterArrives`: the tokeniser sqlite3 applies to dot commands is not modelled, only its string literal; what printf does with a conversion is any function that does not stop inside an escape and prints no more % signs than it takes behind the first one.
- `SqlScript.BuildPayload`: floats among the parameters, and quoting of the database path.
- `UserHome.Enable`: the link target is written into the command unquoted; targets with blanks or shell characters are not modelled, nor is the quoting inside synoinfo.conf that the grep fallback undoes. The volume sent with the web set is not kept, and warnings are not.
- `UserHomeDisable.NobodyIsOrphaned`: is about a listing that is complete for the probe's path pattern, which passes over user names starting with a dot; `UserHomeDisable.UnmatchedPatternOrphans` shows what a listing that is not may lead to.
- `Packages.PackageCenter.PackagesInstall`: warnings, and which of three response fields holds the licence text. A request takes effect, if it does, when it is sent.
- `Shares.NormalizeShareRow`: the used size, which goes through floating-point rounding. Names are lower-cased as ASCII.
- `Shares.ProbedSize`: numbers are read with ASCII digits only.
- `Terminal.TerminalNas.SshSetPort`: the handshake on the new port is a yes or no; that the port is an integer at all is left to its type.
- The HTTP client, paramiko, JSON coding, logging, configuration, authentication and tool registration.
- `ssh_enable_user_ssh`, the replication status and activity tools, volume, disk and ACL normalisers, network tools: field renaming and single calls without a law behind them.
