# Verified model of WSLg's application list, process monitor and font monitor

WSLg shows the Linux applications of a distribution in the Windows start menu. This project models the four stateful
parts behind that and proves what they keep.

- **Application list, Windows side** (`Client`, `ClientCallback`, `FileDB`, `FileEntries`, `FileSys`, `TreeWalk`,
  `Sweeping`). Messages drive a database of applications and a directory tree of links and icons. A sync session is a
  mark and sweep: its start records the files found under the menu, every reported application takes its files off the
  list, its end deletes what is left. `Client` says what each message does as a function of the client's state;
  `ClientCallback.Callback` and `FileDB.FileDatabase` are the objects whose members change, each method proved against
  those functions. `ClientLaws`, `SessionLaws`, `SyncLaws`, `HistoryLaws` and `ProviderName` hold what is true of single
  messages and of whole runs; `AcceptedLaws`, `CapsLaws` and `KeyLaws` say in the words of paths, command lines and names
  what an update or capabilities leave and which applications are told apart; `PlainReports` and `ExampleRuns` give runs.
- **Wire protocol** (`Protocol`, `ServerSend`, `ClientRead`, `WireLaws`, `IconFile`, `ClientStream`, `StreamAccounts`,
  `ServerLoop`, `ExamplePackets`). An encoder that counts in one pass and writes in another, a decoder written independently of it, the
  container the client builds around icon bits, the client's receive loop over raw bytes, and the server's loop over the
  client's replies.
- **Process supervisor** (`ProcessMonitor`, `SupervisorLaws`): relaunching with a limit per 60 seconds.
- **Font monitor** (`FontMonitor`, `FontPathLaws`, `FontEvents`): tracked folders, their copy in the X server, and the
  buffer of inotify events that drives them.

`CloseProtocol` is the interleaving of the receive thread with the closing of the channel.

How the outside is modelled:

- Every call that reaches the file system takes its answer from `Disk.tape`; a run may hold any answers, so a law without
  `Reliable` holds whatever fails. `Reliable` means that every call that can be done is done.
- `Host` holds what the machine answers otherwise: known folders, registry, environment, GUID syntax, locale, the largest
  possible allocation. fork, xset, inotify and access answers are parameters (`Turn`, `Probe`, `Answer`).
- Wide strings are sequences of 16-bit units, wire integers have their width and wrap or are checked where the code does.

## Where the code and what is written about it part

- The server lets strings of up to 512 bytes through, the client reads at most 510 and no empty required string. The laws
  state the client's bound exactly (`WireLaws.StringReadsBack`) and where the two part (`WireLaws.BoundsPartExactly`).
- The server always writes the provider's unique id, the client reads it from version 4 on: before, the two disagree on
  where the packet ends (`WireLaws.CapsReadBack`).
- A string of odd byte length loses its last byte to the terminator: re-encoding is exact if and only if all lengths are
  even (`WireLaws.UpdateCanonical` and its siblings).
- The body of DELETE_APPLIST_PROVIDER is never read and is taken for the next header (`ClientStream.ProviderBodyUnread`);
  with the provider's field in it the loop always fails (`ClientStream.ProviderPacketFails`), and nothing sent behind such
  a packet is ever handled as sent (`StreamAccounts.NothingBehindProvider`).
- The size of an update is counted in 32 bits; with an icon that brings the packet to 2^32 bytes the second pass writes
  past its stream, exactly then (`ServerSend.UpdateOverrunExactly`).
- The server's loop never ends if and only if, following the claimed lengths of the PDUs it accepts, it comes to an
  accepted one of claimed length 0 (`ServerLoop.SpinsExactly`; `ServerLoop.ZeroLengthSpins` is the failing input).
- A packet the channel takes only in part is reported as sent (`ServerSend.OkIsNotSent`), and the client fails on it
  (`StreamAccounts.CutInsidePacket`).
- SYNC_END is documented as "use with" SYNC. Without it the last update's own link is swept if it was there at the start,
  exactly then (`SyncLaws.EndKeepsItsLinkExactly`; `PlainReports.EndWithoutSyncSweeps` and the run `ExampleRuns.EndRun`
  lose one).
- The font monitor adds a folder with its subtree and removes it without (`FontMonitor.RemoveLeavesDescendants`, with the
  condition; `FontMonitor.MovedFolderLeavesChild` is a run that leaves a folder tracked below one that was moved away).
- A provider name keeps the tail of an earlier one behind it unless a terminator happens to stand there: exactly when is
  `ProviderName.NameAfterCaps`, and for two names in a row `ProviderName.SecondNameExactly`. "a" sent after "ab" is taken
  for "ab" (`ProviderName.ShorterNameIsMissed`).
- The id is documented as the name of the application's link. The code names the link after the description and the icon
  after the id, so applications of one group and description share a link, and deleting one deletes it for both
  (`KeyLaws.SharedLink`).
- A directory that cannot be made because its name is taken counts as made, also when a file has the name: the update is
  accepted and its entry names a link that was never written (`AcceptedLaws.FileForMenu`).
- Group and id are joined with a backslash and never screened for one, so two applications can be taken for one: exactly
  when is `KeyLaws.KeysShareExactly`, never where the ids hold no backslash (`KeyLaws.KeysTellApps`).
  `KeyLaws.BackslashConfuses` deletes one application by the name of another.
- The supervisor says of a command that it exits too often, but joins its arguments with spaces: processes share a limit
  if and only if their arguments are the same words once parted at spaces (`SupervisorLaws.CommandTellsWords`;
  `SupervisorLaws.SpacesShareCommand` is an example).
- The sweep does not touch the application database: an entry stays when a session ends, and its link stays if and only
  if it is not left on the session's list (`HistoryLaws.EntryOutlivesItsLink`, `HistoryLaws.UnreportedGoesStale`;
  `ExampleRuns.StaleRun` is a run that ends with an entry whose link is gone).

## Model

| member | source | states |
|---|---|---|
| SyncLaws.SyncConvergence | WSLDVCPlugin/WSLDVCCallback.cpp:573-771 | for every session from an opening to an ending report, whatever other messages come between, in which every update handled is an accepted sync update, no delete succeeds, the directories stay the same and no file operation fails: the disk is then what it was without the links under the menu and the icons stored in them, plus exactly the links and icons reported, each link pointing to its icon, each icon with its bytes; the links under the menu are the link paths reported |
| SessionLaws.SweepSafety | WSLDVCPlugin/WSLDVCCallback.cpp:344-382 | over every run, whatever is rejected, deleted or fails: an open session's list is exactly what was recorded at its start minus what accepted sync updates unmarked, and the next event loses no file but those of a delete or what an ended session still lists, exactly those where nothing fails, and changes the content of no file but those an accepted update writes |
| SessionLaws.TurnKeepsBalance | WSLDVCPlugin/WSLDVCCallback.cpp:757-771 | one event keeps that balance and loses no file outside it, on a disk that fails nothing exactly what it names, and changes no content but that of an accepted update's files; closing loses none |
| SyncLaws.EndKeepsItsLinkExactly | WSLDVCPlugin/WSLDVCCallback.cpp:757-771 | an update that ends a session keeps the link it wrote iff it carries the sync hint or its link was not on the list |
| PlainReports.EndWithoutSyncSweeps | WSLDVCPlugin/WSLDVCCallback.cpp:757-771 | an ordinary update that opens and ends a session without the sync hint, for a link that is there, is accepted, writes the link and sweeps it |
| ExampleRuns.EndRun | WSLDVCPlugin/WSLDVCCallback.cpp:384-771 | a run from a fresh client that ends with such an update |
| SyncLaws.SessionConverges | WSLDVCPlugin/WSLDVCCallback.cpp:573-771 | the induction of convergence: from any point of a session the rest of it ends with the marked files gone and all reported files there |
| PlainReports.PlainIsGood | WSLDVCPlugin/WSLDVCCallback.cpp:573-755 | on a disk that fails nothing, a report without group and icon whose names pass and whose key and link name are free is accepted and its link written |
| PlainReports.OneReportSession | WSLDVCPlugin/WSLDVCCallback.cpp:573-771 | such a report that starts and ends a session leaves its link as the only one under the menu |
| PlainReports.StaleEntry | WSLDVCPlugin/WSLDVCCallback.cpp:729-771 | of two such sessions in a row the second leaves the first one's entry in the database without its link |
| ExampleRuns.StaleRun | WSLDVCPlugin/WSLDVCCallback.cpp:384-771 | one run from a fresh client, capabilities and two sessions, that ends with an entry whose link is gone |
| SessionLaws.UpdateEffect | WSLDVCPlugin/WSLDVCCallback.cpp:528-774 | a rejected update changes no file and no database; an accepted one adds exactly one entry, takes exactly its own files off the list, loses no file unless it ends the session and leaves the content of every other file as it was |
| SessionLaws.DeleteEffect | WSLDVCPlugin/WSLDVCCallback.cpp:776-845 | a delete succeeds iff its key is there, removes that key alone, and can lose no file but the two the entry names |
| KeyLaws.DeleteNamesExactly | WSLDVCPlugin/WSLDVCCallback.cpp:716-845 | after the first update of a database a delete succeeds iff it names what is taken for the same application; with ids without a backslash, iff group, presence of a group and id are the same |
| KeyLaws.KeysShareExactly | WSLDVCPlugin/WSLDVCCallback.cpp:716-728 | two applications, with any names, share a key iff they are the same or the id of one holds the end of the other's group in front of the other's id |
| KeyLaws.KeysTellApps | WSLDVCPlugin/WSLDVCCallback.cpp:716-728 | with ids without a backslash, iff they are the same |
| KeyLaws.OtherAppsKept | WSLDVCPlugin/WSLDVCCallback.cpp:716-733 | in any database an update, accepted or not, leaves what is found for every other application as it was |
| KeyLaws.DeleteKeepsOtherApps | WSLDVCPlugin/WSLDVCCallback.cpp:809-844 | so does a delete |
| KeyLaws.BackslashConfuses | WSLDVCPlugin/WSLDVCCallback.cpp:716-842 | the failing input: after id "b\c" of group "a" is accepted, a delete of id "c" of group "a\b" deletes it |
| KeyLaws.SharedLink | WSLDVCPlugin/WSLDVCCallback.cpp:663-699 | of two applications of one group and description, both accepted, deleting the first deletes the second one's link and leaves its entry |
| KeyLaws.AssociateKnown | WSLDVCPlugin/WSLDVCCallback.cpp:887-958 | an association for an accepted application succeeds iff version, window id and the length of program and command line allow it |
| KeyLaws.AssociateUnknown | WSLDVCPlugin/WSLDVCCallback.cpp:887-987 | for an unknown one iff version, window id, the length of its names and of the server's command line do |
| KeyLaws.FailuresReported | WSLDVCPlugin/WSLDVCCallback.cpp:1039-1071 | a delete is reported as failed exactly when its key is too long or unknown, an update with unclean names always, and a message reported as failed has changed no file and no entry |
| SessionLaws.CapsEffect | WSLDVCPlugin/WSLDVCCallback.cpp:384-526 | capabilities touch directories and settings only; bytes are sent and the handshake made exactly when they are answered, which needs version 4 |
| CapsLaws.AnsweredExactly | WSLDVCPlugin/WSLDVCCallback.cpp:414-525 | on a disk that fails nothing, with room for the directories, capabilities are answered iff the name seen has no quote, space or two dots in a row, the version is 4 or later, the id is a GUID, and the machine's paths exist and fit |
| CapsLaws.AnsweredSettles | WSLDVCPlugin/WSLDVCCallback.cpp:414-525 | whatever can fail, answered capabilities have settled menu, icons, program, window id prefix, version and handshake, and one reply of version 4 was sent |
| CapsLaws.HandshakeDecided | WSLDVCPlugin/WSLDVCCallback.cpp:414-525 | capabilities that reach the answer decide the handshake anew, an older server loses it; refused for name or id they change name and version alone |
| CapsLaws.LostReplyEndsHandshake | WSLDVCPlugin/WSLDVCCallback.cpp:515-523 | a reply that cannot be written ends the handshake there was |
| CapsLaws.PathsLeft | WSLDVCPlugin/WSLDVCCallback.cpp:440-475 | what the three path members hold at each failing step |
| SessionLaws.StepKeepsValid | WSLDVCPlugin/WSLDVCCallback.cpp:993-1100 | every event keeps both databases ordered, their paths within bounds and the file tree well formed |
| ClientLaws.StartRecords | WSLDVCPlugin/WSLDVCCallback.cpp:344-366 | a session starts with every link under the menu and every icon that could be read from one, and nothing else; starting twice changes nothing |
| ClientLaws.AdmitEffect | WSLDVCPlugin/WSLDVCCallback.cpp:573-733 | up to acceptance an update only adds directories; accepted, its entry is what its key stands for, and its files lie where menu, group and names say |
| ClientLaws.CompleteEffect | WSLDVCPlugin/WSLDVCCallback.cpp:735-774 | the rest of an accepted update: its files, its unmarking, and the sweep of exactly what is left when it ends the session |
| ClientLaws.WriteFilesEffect | WSLDVCPlugin/WSLDVCCallback.cpp:735-755 | whatever fails, only the update's two files are touched; a link that was written points to the icon iff the icon was written |
| AcceptedLaws.UpdateIsWritten | WSLDVCPlugin/WSLDVCCallback.cpp:573-774 | on a disk that fails nothing an update, with or without icon, group and session, whose names are clean and fit, whose key is free and for whose files there is room is accepted and both files are written, the link with the icon's path, the icon with the bytes received; no other file changes unless it ends a session |
| AcceptedLaws.AcceptedMeans | WSLDVCPlugin/WSLDVCCallback.cpp:592-733 | whatever fails, an accepted update has clean names, and the database says of it: menu\group\description.lnk, icons\group\id.ico if an icon came, the program, and the command line -d provider --cd "directory" -- program |
| AcceptedLaws.FileForMenu | WSLDVCPlugin/WSLDVCCallback.cpp:663-755 | with a file where the menu directory should be an update is accepted all the same, its link is not written, and the database names it |
| AcceptedLaws.EmptyIconStays | WSLDVCPlugin/utils.cpp:136-164 | an icon that could be made but not filled stays behind empty and the link is written without it |
| AcceptedLaws.ScreenedExactly | WSLDVCPlugin/WSLDVCCallback.cpp:592-623 | an update is let through iff group (if there is one), id and description hold no quote and no two dots in a row and the working directory no quote |
| ExampleRuns.GroupedRun | WSLDVCPlugin/WSLDVCCallback.cpp:384-774 | a run from a fresh client in which an update with a group and an icon writes both files |
| ClientLaws.TargetEffect | WSLDVCPlugin/WSLDVCCallback.cpp:663-699 | making a target only adds directories, and the target is base, group and name |
| ClientLaws.LinkNames | WSLDVCPlugin/WSLDVCCallback.cpp:655-699 | link targets end in .lnk and lie under the menu, icon targets are never links |
| HistoryLaws.DeleteFindsUpdate | WSLDVCPlugin/WSLDVCCallback.cpp:809-842 | after an accepted update and any run without a successful delete of its key, a delete of the key deletes exactly that update's link and icon and removes only that key |
| HistoryLaws.EntryStays | WSLDVCPlugin/WSLDVCCallback.cpp:716-733 | rejected, repeated and conflicting updates and deletes of other keys leave an entry as it is |
| HistoryLaws.EntryOutlivesItsLink | WSLDVCPlugin/WSLDVCCallback.cpp:757-771 | when an update ends a session an entry stays, and its link stays iff it is not in what was recorded minus what was unmarked |
| HistoryLaws.UnreportedGoesStale | WSLDVCPlugin/WSLDVCCallback.cpp:573-771 | over a whole session every entry stays, and its link under the menu stays iff the session reported it |
| HistoryLaws.HandshakeGates | WSLDVCPlugin/WSLDVCCallback.cpp:1022-1037 | in every run the handshake, without which no handler but that of capabilities is entered, means that some capabilities of version 4 or later were answered |
| ClientStream.HandledAfterGreeting | WSLDVCPlugin/WSLDVCCallback.cpp:1022-1065 | over any bytes a handler other than that of capabilities is entered only with the handshake made before, or by capabilities of version 4 or later handled earlier in the same bytes |
| HistoryLaws.RunSends | WSLDVCPlugin/WSLDVCCallback.cpp:491-525 | what a client has sent is the concatenation of its answers, each of version 4 with the host's language |
| HistoryLaws.ServerHearsAnswers | rdpapplist/server/rdpapplist_main.c:119-191 | the server recovers every answer of a run from those bytes, in order, and stops at their end |
| ClientStream.StreamRoundTrip | WSLDVCPlugin/WSLDVCCallback.cpp:1011-1074 | the bytes of any list of acceptable PDUs are handled as that list in order up to the first refusal; without one all are handled and no byte is left |
| ClientStream.OnlyAcceptable | WSLDVCPlugin/WSLDVCCallback.cpp:1011-1074 | the loop ends well on a list of PDUs only if every one meets the client's required flags and bounds |
| ClientStream.BodyReadsBack | WSLDVCPlugin/WSLDVCCallback.cpp:40-342 | a body is read as the message meant, up to exactly its end, iff it is acceptable |
| ClientStream.ServerSendsAcceptable | rdpapplist/server/rdpapplist_main.c:309-501 | whatever the client accepts passes the server's checks and is sent as exactly those bytes |
| ClientStream.ProviderBodyUnread | WSLDVCPlugin/WSLDVCCallback.cpp:1054-1057 | a DELETE_APPLIST_PROVIDER packet is handled as its header alone, its body as the stream behind it |
| ClientStream.ProviderPacketFails | WSLDVCPlugin/WSLDVCCallback.cpp:1054-1071 | behind such a packet the loop ends well only if the flags read as a command, so never with the provider's field |
| ClientStream.CutCapsKeepVersion | WSLDVCPlugin/WSLDVCCallback.cpp:70-102 | capabilities cut off behind their version fail and leave that version and nothing else |
| ClientStream.OldServersAssociateNothing | WSLDVCPlugin/WSLDVCCallback.cpp:887-892 | from a server older than version 4 an association fails before its body is read |
| StreamAccounts.NothingBehindProvider | WSLDVCPlugin/WSLDVCCallback.cpp:1054-1057 | no list of PDUs behind a DELETE_APPLIST_PROVIDER packet is ever handled as that list to a good end |
| StreamAccounts.BytesAccounted | WSLDVCPlugin/WSLDVCCallback.cpp:1011-1074 | every byte of a stream that comes to a good end belongs to a message handled, by lengths the messages themselves tell |
| StreamAccounts.HandledInPieces | WSLDVCPlugin/WSLDVCCallback.cpp:993-1080 | bytes handled to a good end in one call and any bytes in the next come to the same as all of them in one |
| StreamAccounts.CutBetweenPackets | WSLDVCPlugin/WSLDVCCallback.cpp:993-1080 | so a server's stream may be cut between any two packets |
| StreamAccounts.CutInsidePacket | WSLDVCPlugin/WSLDVCCallback.cpp:993-1080 | and nowhere else: part of an acceptable packet fails its call and is not handled |
| StreamAccounts.MessageExtends | WSLDVCPlugin/WSLDVCCallback.cpp:40-342 | bytes behind a message that is read change nothing about it |
| ClientStream.ReceiveIsRun | WSLDVCPlugin/WSLDVCCallback.cpp:993-1080 | on any bytes the loop does to the client what some run of events does |
| ClientStream.CallsAreRun | WSLDVCPlugin/WSLDVCCallback.cpp:993-1100 | so do any calls with any bytes and any closing: every law of runs holds after them |
| ClientCallback.Callback.OnDataReceived | WSLDVCPlugin/WSLDVCCallback.cpp:993-1080 | the object's loop over a buffer ends in exactly the state, result and handled messages of the specified loop |
| ClientCallback.Callback.Dispatch | WSLDVCPlugin/WSLDVCCallback.cpp:1022-1071 | one pass: which handler runs, what it consumes and what it leaves |
| ClientCallback.Callback.OnUpdateAppList | WSLDVCPlugin/WSLDVCCallback.cpp:528-774 | reads its message and acts on it, or changes nothing and leaves the cursor |
| ClientCallback.Callback.Admit | WSLDVCPlugin/WSLDVCCallback.cpp:573-733 | refines the specified admission, databases and disk included |
| ClientCallback.Callback.Complete | WSLDVCPlugin/WSLDVCCallback.cpp:735-774 | refines the specified completion |
| ClientCallback.Callback.OnDeleteAppList | WSLDVCPlugin/WSLDVCCallback.cpp:776-845 | reads its message and deletes as specified, or changes nothing |
| ClientCallback.Callback.Delete | WSLDVCPlugin/WSLDVCCallback.cpp:809-844 | the lookup, the two deletions and the removal of the key |
| ClientCallback.Callback.OnAssociateWindowId | WSLDVCPlugin/WSLDVCCallback.cpp:874-987 | needs version 4 before it reads; whether it reports success |
| ClientCallback.Callback.OnCaps | WSLDVCPlugin/WSLDVCCallback.cpp:414-526 | refines the specified handling of capabilities, members stored before a failing step included |
| ClientCallback.Callback.OnCapsData | WSLDVCPlugin/WSLDVCCallback.cpp:384-414 | a version that was read is stored even when the rest fails |
| ClientCallback.Callback.OnSyncStart | WSLDVCPlugin/WSLDVCCallback.cpp:344-366 | refuses a second session, else fills a new database with the walk of the menu |
| ClientCallback.Callback.OnSyncEnd | WSLDVCPlugin/WSLDVCCallback.cpp:368-382 | sweeps only when asked to, and always drops the session |
| ClientCallback.Callback.OnClose | WSLDVCPlugin/WSLDVCCallback.cpp:1082-1100 | cancels a session without a sweep and drops the database |
| ClientCallback.Callback.BuildIconPath | WSLDVCPlugin/utils.cpp:240-295 | the two directories made, and the path left behind by each failing step |
| ClientCallback.Callback.BuildMenuPath | WSLDVCPlugin/utils.cpp:204-237 | the menu path formatted before its directory is made |
| FileEntries.SetRefinesMap | WSLDVCPlugin/WSLDVCFileDB.cpp:116-294 | for every sequence of adds, removals and clears, lookup answers the first add since the key was last removed or everything cleared |
| FileEntries.ReAdd | WSLDVCPlugin/WSLDVCFileDB.cpp:162-182 | adding a key again changes nothing and is accepted iff the data are equal |
| FileEntries.FindRefines | WSLDVCPlugin/WSLDVCFileDB.cpp:57-65 | lookup in the ordered set is lookup in the map it stands for |
| FileEntries.InsertRefines | WSLDVCPlugin/WSLDVCFileDB.cpp:162-163 | insertion adds a binding unless the key is there |
| FileEntries.EraseRefines | WSLDVCPlugin/WSLDVCFileDB.cpp:194-214 | erasing removes the key and nothing else |
| FileDB.FileDatabase.OnFileAdded | WSLDVCPlugin/WSLDVCFileDB.cpp:116-183 | succeeds iff the key now stands for exactly this data; a differing entry is kept |
| FileDB.FileDatabase.OnFileRemoved | WSLDVCPlugin/WSLDVCFileDB.cpp:185-223 | succeeds iff the key was there, and removes it alone |
| FileDB.FileDatabase.FindFiles | WSLDVCPlugin/WSLDVCFileDB.cpp:225-294 | succeeds iff the key is there and every buffer passed is large enough, and then fills them with its data |
| FileDB.FileDatabase.OnLnkFileAdded | WSLDVCPlugin/WSLDVCFileDB.cpp:93-114 | records the link, and its icon when it could be read |
| FileDB.FileDatabase.AddAllSubFolderFiles | WSLDVCPlugin/WSLDVCFileDB.cpp:350-398 | the recursive walk ends and does to disk and database what the specified walk does |
| FileDB.FileDatabase.DeleteAllFileIdFiles | WSLDVCPlugin/WSLDVCFileDB.cpp:303-336 | the loop that erases while it iterates ends, empties the database and does the specified sweep |
| FileDB.RemoveAppProvider | WSLDVCPlugin/dllmain.cpp:83-101 | walk, then sweep; nothing without a menu directory |
| WalkLaws.WalkAccounts | WSLDVCPlugin/WSLDVCFileDB.cpp:350-398 | on any finite tree: all links are collected, with the icons that could be read and nothing else; only directories empty when visited go; exact when nothing fails |
| WalkLaws.EntryAccounts | WSLDVCPlugin/WSLDVCFileDB.cpp:363-393 | one listed entry collects and removes exactly what its subtree holds |
| WalkLaws.BelowIsChildren | WSLDVCPlugin/WSLDVCFileDB.cpp:357-394 | what lies below a directory is what lies in its children's subtrees |
| TreeWalk.Smaller | WSLDVCPlugin/WSLDVCFileDB.cpp:382-382 | why the recursion ends: a subdirectory has strictly fewer directories below it |
| Sweeping.SweepSafe | WSLDVCPlugin/WSLDVCFileDB.cpp:303-336 | whatever fails: only listed files go, only their parents go, nothing else changes, no directory with an entry is removed |
| Sweeping.SweepExact | WSLDVCPlugin/WSLDVCFileDB.cpp:303-336 | when deletions succeed exactly the listed files are gone |
| Sweeping.SweepCleansUp | WSLDVCPlugin/WSLDVCFileDB.cpp:318-330 | a directory with entries, all of them swept files, is removed itself |
| Sweeping.DirsGoneExactly | WSLDVCPlugin/WSLDVCFileDB.cpp:310-333 | on any tree a directory goes iff a file in it is swept, all files in it are, and every subdirectory goes by the same rule with its own last file swept earlier in the order of the ids |
| Sweeping.CleanUpExactly | WSLDVCPlugin/WSLDVCFileDB.cpp:318-330 | a directory without subdirectories goes iff it had entries and all were swept |
| Sweeping.ProviderRemoved | WSLDVCPlugin/dllmain.cpp:83-101 | no link is left under the menu, no icon of such a link anywhere, every other file as it was |
| Sweeping.ProviderRemovalSafe | WSLDVCPlugin/dllmain.cpp:83-101 | whatever fails, no other file goes or changes |
| Sweeping.ProviderGroupGone | WSLDVCPlugin/dllmain.cpp:96-97 | a group directory that held only links is gone |
| FileSys.RemoveDirKeepsWellFormed | WSLDVCPlugin/WSLDVCFileDB.cpp:322-329 | removing a directory never leaves an entry without its directory |
| WireLaws.StringReadsBack | WSLDVCPlugin/rdpapplist.h:160-171 | a string is read back iff it fits beside the terminator and is not empty where required |
| WireLaws.StringCanonical | WSLDVCPlugin/rdpapplist.h:160-171 | re-encoding a string that was read gives the bytes consumed, less one byte for an odd length |
| WireLaws.UpdateReadsBack | WSLDVCPlugin/WSLDVCCallback.cpp:104-153 | an encoded update, with any flags, is read back iff its required flags and lengths are acceptable |
| WireLaws.UpdateReadExactly | WSLDVCPlugin/WSLDVCCallback.cpp:121-138 | with all strings between 1 and 510 bytes an encoded update is read iff bits 0x1, 0x4 and 0x8 of its flags are set, whatever the others |
| WireLaws.BoundsPartExactly | WSLDVCPlugin/rdpapplist.h:160-171 | a field passes the server and not the client iff it is present and has 511 or 512 bytes or is empty and required |
| WireLaws.UpdateCanonical | WSLDVCPlugin/WSLDVCCallback.cpp:104-153 | for every byte string, an accepted update re-encodes to the bytes consumed iff all lengths are even |
| WireLaws.UpdateViewLossless | WSLDVCPlugin/rdpapplist.h:160-171 | what an update arrives as tells all that was sent iff all lengths are even |
| WireLaws.DeleteViewLossless | WSLDVCPlugin/rdpapplist.h:160-171 | the same for deletes |
| WireLaws.AssociateViewLossless | WSLDVCPlugin/rdpapplist.h:160-171 | the same for window associations |
| WireLaws.IconReadsBack | WSLDVCPlugin/WSLDVCCallback.cpp:155-255 | icon data is read back iff its container stays below 2^32 bytes and can be allocated |
| WireLaws.IconCanonical | WSLDVCPlugin/WSLDVCCallback.cpp:155-255 | accepted icon data re-encodes to exactly the bytes consumed |
| WireLaws.DeleteReadsBack | WSLDVCPlugin/WSLDVCCallback.cpp:257-294 | the same for deletes |
| WireLaws.DeleteReadExactly | WSLDVCPlugin/WSLDVCCallback.cpp:274-280 | likewise iff bit 0x1 is set |
| WireLaws.DeleteCanonical | WSLDVCPlugin/WSLDVCCallback.cpp:257-294 | canonical iff both lengths are even |
| WireLaws.AssociateReadsBack | WSLDVCPlugin/WSLDVCCallback.cpp:296-342 | the same for window associations |
| WireLaws.AssociateReadExactly | WSLDVCPlugin/WSLDVCCallback.cpp:313-325 | likewise iff bits 0x1 and 0x80 are set |
| WireLaws.AssociateCanonical | WSLDVCPlugin/WSLDVCCallback.cpp:296-342 | canonical iff all lengths are even |
| WireLaws.CapsReadBack | WSLDVCPlugin/WSLDVCCallback.cpp:70-102 | capabilities are read back, and both sides agree on their end iff the version is 4 or later |
| WireLaws.CapsPartExactly | WSLDVCPlugin/WSLDVCCallback.cpp:70-102 | capabilities pass the server and not the client iff the name, or from version 4 on the id, is empty or longer than 510 bytes |
| ProviderName.ShownExactly | WSLDVCPlugin/WSLDVCCallback.cpp:414-414 | a name copied into the buffer is seen as it was sent iff it holds a terminator or one stands behind it, of which an odd length brings the lower half |
| ProviderName.NameAfterCaps | WSLDVCPlugin/WSLDVCCallback.cpp:404-420 | so for any capabilities in any state, accepted or not |
| ProviderName.NameAfterBytes | WSLDVCPlugin/WSLDVCCallback.cpp:384-420 | and so for any bytes that are read as capabilities |
| ProviderName.DecodedIsAsRead | WSLDVCPlugin/WSLDVCCallback.cpp:87-92 | what is read as capabilities has a name within the bounds these laws ask for, and from version 4 on an id that is not empty |
| ProviderName.SecondNameExactly | WSLDVCPlugin/WSLDVCCallback.cpp:404-420 | of two names sent to a fresh client the second is seen as sent iff it is at least as long as the first, or has an odd length and covers a single-byte character of it |
| ProviderName.ShorterNameIsMissed | WSLDVCPlugin/WSLDVCCallback.cpp:404-420 | the failing input, as packets that are read to their end: after "ab" the name "a" is taken for "ab" |
| WireLaws.HeaderReadsBack | rdpapplist/rdpapplist_common.c:55-60 | a written header is read back |
| ExamplePackets.UpdateBytes | rdpapplist/rdpapplist_protocol.h:93-123 | an update with every field, byte by byte |
| ExamplePackets.CapsBytes | rdpapplist/rdpapplist_protocol.h:67-80 | capabilities with their header, byte by byte |
| ExamplePackets.OtherBytes | rdpapplist/rdpapplist_protocol.h:127-158 | delete, provider delete and association, byte by byte |
| ExamplePackets.ReplyBytes | rdpapplist/rdpapplist_protocol.h:84-89 | the client's reply, for any language |
| ClientRead.ReadSTRING | WSLDVCPlugin/rdpapplist.h:160-171 | the macro over a cursor refines the specified read |
| ClientRead.ReadAppListUpdate | WSLDVCPlugin/WSLDVCCallback.cpp:104-153 | refines the specified decoder; a failed read gives the caller its own cursor back, position plus remaining never changes |
| ClientRead.ReadAppListIconData | WSLDVCPlugin/WSLDVCCallback.cpp:155-255 | the same, with the container built in place |
| ClientRead.ReadAppListDelete | WSLDVCPlugin/WSLDVCCallback.cpp:257-294 | the same |
| ClientRead.ReadAssociateWindowId | WSLDVCPlugin/WSLDVCCallback.cpp:296-342 | the same |
| ClientRead.ReadAppListServerCaps | WSLDVCPlugin/WSLDVCCallback.cpp:70-102 | the same; the version stays read when the rest fails |
| ClientRead.ReadAppListHeader | WSLDVCPlugin/WSLDVCCallback.cpp:40-68 | the same; a success consumes 8 bytes, which ends the receive loop |
| IconFile.ContainerReadsBack | WSLDVCPlugin/WSLDVCCallback.cpp:185-224 | a reader of icon files finds one image that ends with the file, and in it a bitmap header followed by exactly the bits received |
| IconFile.DirectoryOfContainer | WSLDVCPlugin/utils.h:80-100 | the directory entry read back: offset 22, size 40 plus the bits |
| IconFile.BitmapOfImage | WSLDVCPlugin/WSLDVCCallback.cpp:214-224 | the bitmap header read back, height doubled and cut to 32 bits |
| IconFile.UnusedIsZero | WSLDVCPlugin/WSLDVCCallback.cpp:185-224 | the fields an icon of this kind does not use are zero |
| IconFile.Build | WSLDVCPlugin/WSLDVCCallback.cpp:185-224 | the buffer filled in place, within bounds, is the container |
| ServerSend.ServerContext.SendUpdateAppList | rdpapplist/server/rdpapplist_main.c:344-455 | refuses bad input without sending; else the channel gets a packet whose length field is its size, or the overrun is reported |
| ServerSend.ServerContext.SendCaps | rdpapplist/server/rdpapplist_main.c:309-342 | the same for capabilities |
| ServerSend.ServerContext.SendDeleteAppList | rdpapplist/server/rdpapplist_main.c:457-501 | the same for deletes |
| ServerSend.ServerContext.SendDeleteAppListProvider | rdpapplist/server/rdpapplist_main.c:503-532 | the same for provider deletes |
| ServerSend.ServerContext.SendAssociateWindowId | rdpapplist/server/rdpapplist_main.c:534-610 | the same for window associations |
| ServerSend.OthersNeverOverrun | rdpapplist/server/rdpapplist_main.c:309-610 | the other four kinds never outgrow their stream once their checks pass |
| ServerSend.UpdateOverrunExactly | rdpapplist/server/rdpapplist_main.c:344-455 | the second pass outgrows the stream iff the packet has 2^32 bytes or more, never with at most 2^32 - 1 - 2610 bytes of icon |
| ServerSend.UpdateBoundIsTight | rdpapplist/server/rdpapplist_main.c:344-455 | with every field full, one byte more overruns |
| ServerSend.OkIsNotSent | rdpapplist/server/rdpapplist_main.c:279-302 | the code is Ok iff stream and channel were there, the packet is sent iff the channel also took all of it; what it took is its beginning |
| ServerLoop.RepliesRoundTrip | rdpapplist/server/rdpapplist_main.c:47-112 | any number of replies in one buffer is given to the callback in order, and the loop stops exactly at the end |
| ServerLoop.ServesFrom | rdpapplist/server/rdpapplist_main.c:177-187 | the same from any position, up to the first reply the callback refuses |
| ServerLoop.StuckExactly | rdpapplist/server/rdpapplist_main.c:102-109 | a pass makes no progress iff it is an accepted capability PDU of claimed length 0 |
| ServerLoop.SpinsExactly | rdpapplist/server/rdpapplist_main.c:177-187 | the loop never ends iff, following claimed lengths, it comes to an accepted capability PDU of claimed length 0 |
| ServerLoop.TerminatesWithoutZeroLength | rdpapplist/server/rdpapplist_main.c:177-187 | so every buffer in which no such header stands is finished |
| ServerLoop.ZeroLengthSpins | rdpapplist/server/rdpapplist_main.c:177-187 | the failing input: one such header is enough |
| ServerLoop.LeavesByClaimedLength | rdpapplist/server/rdpapplist_main.c:72-112 | capabilities anywhere in a buffer are left by the length they claim, whatever it is |
| ServerLoop.UnknownIsRefused | rdpapplist/server/rdpapplist_main.c:95-100 | any other command ends the loop with nothing given |
| ServerLoop.InputStream.HandleMessages | rdpapplist/server/rdpapplist_main.c:174-187 | the loop that repositions its stream gives and ends as specified |
| ServerLoop.InputStream.ReceivePdu | rdpapplist/server/rdpapplist_main.c:72-112 | one PDU: result, new position, what the callback was given |
| CloseProtocol.NoHandlerWithoutDb | WSLDVCPlugin/WSLDVCCallback.cpp:1003-1097 | in every interleaving no handler runs with the database dropped, and never two at once |
| CloseProtocol.OnlyEarlierGuardsStart | WSLDVCPlugin/WSLDVCCallback.cpp:1011-1085 | in every interleaving a handler that starts after the flag is set belongs to a call that had passed its guard before, and none has started late before it |
| CloseProtocol.PassedBeforeFlag | WSLDVCPlugin/WSLDVCCallback.cpp:1011-1085 | whatever happens after the flag is set, whoever is past the guard was past it then |
| CloseProtocol.AtMostOneLateStart | WSLDVCPlugin/WSLDVCCallback.cpp:1011-1085 | at most one message starts after the flag is set, and a guard tested then lets none through |
| CloseProtocol.FailureEndsCall | WSLDVCPlugin/WSLDVCCallback.cpp:1011-1080 | in every interleaving a handler that fails is the last of its call |
| CloseProtocol.CloseCompletes | WSLDVCPlugin/WSLDVCCallback.cpp:1082-1100 | with the lock free a close goes through to a dropped database and a free lock |
| CloseProtocol.LateStartHappens | WSLDVCPlugin/WSLDVCCallback.cpp:1011-1085 | and that one start can happen |
| CloseProtocol.ClosedStaysQuiet | WSLDVCPlugin/WSLDVCCallback.cpp:1082-1100 | after the close has returned no handler starts or ends |
| CloseProtocol.StepKeepsInv | WSLDVCPlugin/WSLDVCCallback.cpp:1003-1097 | lock ownership, flag and database keep their relation at every step |
| ProcessMonitor.RestartBound | WSLGd/ProcessMonitor.cpp:115-124 | with a clock that never goes back, any closed 60-second window of any run holds at most 10 relaunches of a command |
| SupervisorLaws.GivenUpExactly | WSLGd/ProcessMonitor.cpp:98-131 | in every run with a clock that never goes back a process is given up iff, with this exit, at least 11 processes with its words exited in the last 60 seconds; else it is started again with its record |
| SupervisorLaws.PlainExits | WSLGd/ProcessMonitor.cpp:101-105 | where no argument holds a space or a NUL those are the processes with exactly its argument list |
| SupervisorLaws.CommandTellsWords | WSLGd/ProcessMonitor.cpp:101-105 | two argument lists are counted together iff they have the same words |
| SupervisorLaws.CommandTellsList | WSLGd/ProcessMonitor.cpp:101-105 | lists of arguments without space and NUL iff they are equal |
| SupervisorLaws.SpacesShareCommand | WSLGd/ProcessMonitor.cpp:101-105 | an example of two different lists that are counted together |
| SupervisorLaws.RestartBoundByWords | WSLGd/ProcessMonitor.cpp:115-124 | no closed 60-second window holds more than 10 restarts of processes with the same words |
| ProcessMonitor.DecisionExact | WSLGd/ProcessMonitor.cpp:115-124 | the list at a decision is exactly the command's exits in [now - 60, now]; giving up happens iff there are at least 11 |
| ProcessMonitor.TenThenGiveUp | WSLGd/ProcessMonitor.cpp:120-124 | the bound is met: below ten recent exits it relaunches, with ten it gives up |
| ProcessMonitor.Conservation | WSLGd/ProcessMonitor.cpp:83-131 | record by record, launched equals still tracked plus given up, over any run with fresh pids |
| ProcessMonitor.StepConserves | WSLGd/ProcessMonitor.cpp:98-131 | one turn neither loses nor duplicates a record |
| ProcessMonitor.RelaunchKeepsCountExactly | WSLGd/ProcessMonitor.cpp:123-127 | the table keeps its size iff fork's pid was not in it |
| ProcessMonitor.UntrackedDropOut | WSLGd/ProcessMonitor.cpp:98-131 | over any run, leaving out the turns that reap untracked pids gives the same table, stamps and log |
| ProcessMonitor.Monitor.Run | WSLGd/ProcessMonitor.cpp:87-136 | the loop refines the specified run |
| ProcessMonitor.Monitor.LaunchProcess | WSLGd/ProcessMonitor.cpp:18-85 | the table entry a launch leaves |
| FontMonitor.XServerAgreement | WSLGd/FontMonitor.cpp:14-46 | after every sequence of calls the X server holds exactly the tracked folders flagged as added and what failed removals left; without such failures nothing else |
| FontPathLaws.AddGains | WSLGd/FontMonitor.cpp:14-29 | adding a fresh, watchable tree adds to the X server exactly the paths of its directories with a readable fonts.dir for which xset succeeds, and flags exactly those folders |
| FontPathLaws.AddMountGains | WSLGd/FontMonitor.cpp:141-146 | the mount folder's case: itself and its X11 subtree |
| FontPathLaws.UnwatchedFolder | WSLGd/FontMonitor.cpp:14-46 | a folder that cannot be watched is not tracked; its path stays in the X server iff it was added and could not be taken out again |
| FontPathLaws.FontsDirExactly | WSLGd/FontMonitor.cpp:202-221 | a created, written or moved-in fonts.dir that is readable puts its folder into the X server when xset succeeds, a deleted or moved-out one takes it out; in every other case nothing changes |
| FontPathLaws.FolderEventExactly | WSLGd/FontMonitor.cpp:173-200 | a directory that comes in is added with what is reachable in it, in the mount folder only X11; one that goes is dropped alone |
| FontPathLaws.BeforeExactly | WSLGd/FontMonitor.cpp:173-194 | the order in which folders are come to is that of their paths as strings, first difference or end |
| FontMonitor.StopEmpties | WSLGd/FontMonitor.cpp:310-331 | after Stop nothing is tracked and, if no removal failed, the X server holds nothing |
| FontMonitor.TrackedInScope | WSLGd/FontMonitor.cpp:132-200 | in every reachable state each key is its folder's path and lies in the mount folder, its X11 subtree or the alternate subtree |
| FontMonitor.AddCoversScope | WSLGd/FontMonitor.cpp:132-160 | adding any folder in scope adds exactly what is reachable from it through untracked, watchable directories, of the mount folder only itself and X11 |
| FontMonitor.AddMountCoversExactly | WSLGd/FontMonitor.cpp:141-146 | the mount folder's case |
| FontMonitor.AddCoversExactly | WSLGd/FontMonitor.cpp:147-152 | the other folders' case |
| FontMonitor.AddCoversTree | WSLGd/FontMonitor.cpp:147-152 | a fresh, watchable tree is tracked entirely |
| FontMonitor.RemoveLeavesDescendants | WSLGd/FontMonitor.cpp:162-171 | removing takes one path; the subtree is free afterwards iff nothing below it was tracked |
| FontMonitor.MovedFolderLeavesChild | WSLGd/FontMonitor.cpp:162-194 | a run in which a folder that is moved away leaves its subfolder tracked |
| FontMonitor.RemoveThenClear | WSLGd/FontMonitor.cpp:319-327 | removing one folder first makes no difference to clearing all |
| FontMonitor.Monitor.AddMonitorFolder | WSLGd/FontMonitor.cpp:132-160 | the recursive registration refines the specified one, objects dropped after a failed watch included |
| FontMonitor.Monitor.RemoveMonitorFolder | WSLGd/FontMonitor.cpp:162-171 | one entry erased and destroyed |
| FontMonitor.Monitor.HandleFolderEvent | WSLGd/FontMonitor.cpp:173-200 | acts on the first folder, in the order of the map's keys, that is watched under the descriptor, or on none |
| FontMonitor.Monitor.HandleFontsDirEvent | WSLGd/FontMonitor.cpp:202-221 | the same for fonts.dir |
| FontMonitor.Monitor.StopMonitor | WSLGd/FontMonitor.cpp:310-331 | both roots removed, then everything cleared |
| FontMonitor.FontFolder.ModifyX11FontPath | WSLGd/FontMonitor.cpp:94-115 | xset is called only when the flag would change, and the flag follows its success |
| FontEvents.HandleEvents | WSLGd/FontMonitor.cpp:239-254 | on what the kernel writes, the loop makes exactly the calls of the events in order and ends with the buffer |
| FontEvents.EventReadsBack | WSLGd/FontMonitor.cpp:243-253 | an event is read back from the bytes written for it |
| FontEvents.KindsOfMasks | WSLGd/FontMonitor.cpp:173-221 | the kernel's numbers and what they are taken for |
| FontEvents.EventsReachFolders | WSLGd/FontMonitor.cpp:239-254 | from an event's bits and padded name to the folder it adds, drops or puts into the font path |
| FontEvents.EventsAreRun | WSLGd/FontMonitor.cpp:239-254 | a buffer of events takes a run of the monitor to a longer run |
| FontEvents.EventsKeepAgreement | WSLGd/FontMonitor.cpp:239-254 | after any buffer of events the X server still agrees and every folder is in scope |

## Left out

- Windows' own path rules: letter case, "/", "." components, trailing dots, doubled and trailing separators (which an empty group or provider name leads to), links between directories. Paths are compared as the database compares them.
- A directory listing that fails halfway, and failure to allocate a database object.
- The walk over a menu that does not exist is taken to see one zeroed entry, as the loop does on its cleared buffer.
- COM, registry and locale calls are answers of `Host`; a shell link is its icon location only, and a failed save leaves the old link.
- ClientCallback.Callback.OnAssociateWindowId: does not model what it does to a window, because that is the taskbar's state and not the client's; only whether it reports success.
- The release of icon buffers; memory is not modelled beyond the bound on one allocation.
- A second OnClose; the code would use the database it has dropped.
- The copy of the language into the reply is taken to fit, as the locale names of the host do.
- The server's channel, event and thread handling around its message loop, and the reading of bytes into its stream.
- The child side of LaunchProcess and the waiting inside ExecuteShellCommand: fork and xset are answers.
- FontEvents.HandleEvents: takes the buffer to hold whole events, because the kernel never writes a part of one.
- Inode aliasing between watched folders is allowed (two folders may share a descriptor). The trees under them are assumed to be finite and free of symbolic links, which the code's listing would follow.
- The server's callback is taken to answer the same capabilities the same way each time.
- Stop is taken to fall between two operations of the monitor's thread; the thread can in fact be cancelled after xset has exited and before the flag that records it is set.
- WSLGd's main program, its environment, mounts and sockets; tracing and logging.
