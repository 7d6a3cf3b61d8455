# FTP control channel of FtpHandler, modelled in Dafny

This project models the control-channel logic of a small FTP server in
Netty. In the source, the class `FtpHandler` receives one command line at a
time, picks a `command_*` handler by that line's first token, and answers
with `<code> <text>\r\n` replies. RETR, STOR and LIST also move bytes over
an active-mode data connection, opened to the address the client gave by
PORT.

The model has two layers.

- **Specification.** The session state is the `Commands.State` datatype:
  username, password, working directory, data address, transfer type,
  pending rename source and the disk. Each handler is a function giving an
  `Effect`: the new state, the events written (replies, data chunks, listing
  text) and the outcome. The outcome is either a normal end, a
  `CommandException` (code and text; the dispatcher turns it into a reply)
  or another exception, which closes the connection. `Commands.Step` is
  `channelRead0` for one line.
- **Imperative mirror.** `Server.Session` is a class whose fields are the
  handler's fields. `Server.Disk` is the mutable disk. Each `Command*`
  method updates them in place and `ensures` that the new state equals the
  specification function applied to the old state. `ChannelRead` does the
  same for the whole dispatcher.

The disk is abstract: a map from OS paths (the segments of an absolute
path) to `File(content)` or `Dir`. The native path is the string the
handler builds by prefixing `baseDir` (the process's working directory).
`FileSystem.Lookup` is how the operating system walks that string: it
looks each `.` and `..` up in the entry reached so far, and fails when
that entry is not an existing directory. A path with such a failure
names nothing, so `x/../a` with no directory `x` cannot be opened, even
though its lexical reading `a` may exist. For a resolved path, which
has no `.` or `..`, the walk and the lexical reading agree
(`LookupOfResolved`).

The Java library behaviour the handler relies on is written out explicitly
in `Text`:

- `StringTokenizer` splitting on whitespace or `/`;
- `String.split(",")` dropping trailing empty fields;
- `Integer.parseInt`;
- ASCII `toLowerCase` and `toUpperCase`;
- `getBytes(ASCII)` replacing non-ASCII characters by `?`.

Both layers follow these quirks of the code:

- For RETR, STOR and LIST the argument text bypasses `resolvePath`.
  `StorCanWriteOutsideRoot` and `RetrCanReadOutsideRoot` show a path that
  leaves the server root. The resolved commands (CWD, MKD, RMD, DELE, RNFR,
  RNTO) stay inside it: `ResolvedCommandsStayInRoot`.
- A failed PASS still stores the password, which opens the login gate:
  `RejectedPassStillServes`.
- QUIT is dispatched to `command_quit`, which does not exist, so the verb
  is answered as unsupported: `QuitIsNotSupported`.
- RNTO without a pending RNFR dereferences null, which closes the
  connection: `RntoWithoutRnfrCloses`.
- The data address is never cleared after a transfer, so a later RETR,
  STOR or LIST reuses it; the model does the same.

All `Source` paths below are relative to the repository root.

## Model

| member | source | states |
|---|---|---|
| Paths.ResolvePath | src/main/java/com/jetsnegovik/ftp/server/handlers/FtpHandler.java:534-562 | the segment-stack loop of resolvePath computes exactly the lexical normal form `Resolve` of the absolute path |
| Paths.ResolveShape | src/main/java/com/jetsnegovik/ftp/server/handlers/FtpHandler.java:534-562 | a resolved path starts with '/', and no segment is empty, "." or ".." |
| Paths.ResolveOfResolved | src/main/java/com/jetsnegovik/ftp/server/handlers/FtpHandler.java:534-562 | resolving an already resolved path, from any working directory, returns that path unchanged |
| Paths.ResolveIdempotent | src/main/java/com/jetsnegovik/ftp/server/handlers/FtpHandler.java:534-562 | resolving twice gives the same result as resolving once, whatever the second working directory |
| Paths.DotDotAtRoot | src/main/java/com/jetsnegovik/ftp/server/handlers/FtpHandler.java:541-546 | a ".." with nothing to pop is ignored, so a path never rises above "/" |
| Paths.NativeOfResolved | src/main/java/com/jetsnegovik/ftp/server/handlers/FtpHandler.java:599-608 | the native path of a resolved path names the server root followed by that path's segments |
| Paths.ResolvedStaysUnderRoot | src/main/java/com/jetsnegovik/ftp/server/handlers/FtpHandler.java:599-608 | the native path of any resolved argument lies inside the server root |
| Paths.OsPathChild | src/main/java/com/jetsnegovik/ftp/server/handlers/FtpHandler.java:247-249 | `new File(dir, name)` for a plain name is the directory's path plus that one segment |
| FileSystem.LookupLexical | src/main/java/com/jetsnegovik/ftp/server/handlers/FtpHandler.java:322-323 | a native path the OS can walk names the entry its lexical reading names |
| FileSystem.LookupOfResolved | src/main/java/com/jetsnegovik/ftp/server/handlers/FtpHandler.java:599-608 | the native path of a resolved path is walked to its lexical reading, whatever the disk |
| FileSystem.LookupChild | src/main/java/com/jetsnegovik/ftp/server/handlers/FtpHandler.java:247-249 | `new File(dir, name)` for a plain name is the entry `name` of the directory `dir` denotes, and cannot be walked when `dir` cannot |
| FileSystem.LookupUp | src/main/java/com/jetsnegovik/ftp/server/handlers/FtpHandler.java:322-323 | "p/x/.." names p exactly when x is an existing directory of p, and nothing otherwise |
| FileSystem.LookupDot | src/main/java/com/jetsnegovik/ftp/server/handlers/FtpHandler.java:322-323 | "p/." names p exactly when p is an existing directory, and nothing otherwise |
| FileSystem.WalkFromSameDirs | src/main/java/com/jetsnegovik/ftp/server/handlers/FtpHandler.java:322-323 | walking a path depends only on which entries are directories |
| FileSystem.UpThroughMissing | src/main/java/com/jetsnegovik/ftp/server/handlers/FtpHandler.java:398-402 | below the root, "x/../a" with x not a directory names nothing, although its lexical reading is the root's entry a |
| FileSystem.DotAfterNonDirectory | src/main/java/com/jetsnegovik/ftp/server/handlers/FtpHandler.java:322-323 | below the root, "f/." with f not a directory names nothing, although its lexical reading is f |
| FileSystem.UpsReachOsRoot | src/main/java/com/jetsnegovik/ftp/server/handlers/FtpHandler.java:599-608 | when the server root is an existing directory, the root followed by as many "/.." as it has segments is walked to the OS root |
| FileSystem.UnresolvedPathCanEscape | src/main/java/com/jetsnegovik/ftp/server/handlers/FtpHandler.java:599-608 | without resolvePath, an argument made of enough "/.." segments is walked to the OS root, outside the server root |
| FileSystem.Mkdir | src/main/java/com/jetsnegovik/ftp/server/handlers/FtpHandler.java:370 | File.mkdir succeeds exactly when the path is absent and its parent is a directory; it then adds that one directory and keeps every other entry |
| FileSystem.Delete | src/main/java/com/jetsnegovik/ftp/server/handlers/FtpHandler.java:448 | File.delete succeeds exactly on an existing file or empty directory other than the root; it then removes that one entry and keeps the rest |
| FileSystem.CreateFile | src/main/java/com/jetsnegovik/ftp/server/handlers/FtpHandler.java:402 | opening a FileOutputStream succeeds exactly when the parent is a directory and the path is not one; the file is then empty and nothing else changes |
| FileSystem.Rename | src/main/java/com/jetsnegovik/ftp/server/handlers/FtpHandler.java:486 | File.renameTo succeeds exactly when the rename conditions hold |
| FileSystem.RenameMoves | src/main/java/com/jetsnegovik/ftp/server/handlers/FtpHandler.java:486 | a rename moves the whole subtree of the source under the target, removes the source and leaves every unrelated entry as it was |
| FileSystem.MkdirPreservesTree | src/main/java/com/jetsnegovik/ftp/server/handlers/FtpHandler.java:370 | mkdir keeps the disk a tree (every entry's parent is a directory) |
| FileSystem.DeletePreservesTree | src/main/java/com/jetsnegovik/ftp/server/handlers/FtpHandler.java:448 | delete keeps the disk a tree |
| FileSystem.CreateFilePreservesTree | src/main/java/com/jetsnegovik/ftp/server/handlers/FtpHandler.java:402 | creating a file keeps the disk a tree |
| FileSystem.WritePreservesTree | src/main/java/com/jetsnegovik/ftp/server/handlers/FtpHandler.java:409-412 | writing bytes into a file keeps the disk a tree |
| FileSystem.RenamePreservesTree | src/main/java/com/jetsnegovik/ftp/server/handlers/FtpHandler.java:486 | renaming keeps the disk a tree |
| FileSystem.RenameInside | src/main/java/com/jetsnegovik/ftp/server/handlers/FtpHandler.java:481-492 | a rename between two paths inside a directory changes nothing outside that directory |
| PortArgs.PortAddress | src/main/java/com/jetsnegovik/ftp/server/handlers/FtpHandler.java:610-638 | an address is returned exactly when split(",") yields six fields that all parse as integers in 0..255, and it is then a valid IPv4 socket address |
| PortArgs.ParsePortArgs | src/main/java/com/jetsnegovik/ftp/server/handlers/FtpHandler.java:610-638 | the two array loops of parsePortArgs return null exactly when the argument is refused, and otherwise return host octets and port p1*256+p2 |
| PortArgs.PortRoundTrip | src/main/java/com/jetsnegovik/ftp/server/handlers/FtpHandler.java:610-638 | every valid address written as "h1,h2,h3,h4,p1,p2" parses back to itself |
| PortArgs.PortExampleAccepted | src/main/java/com/jetsnegovik/ftp/server/handlers/FtpHandler.java:610-638 | "127,0,0,1,4,1" is host 127.0.0.1, port 1025 |
| PortArgs.PortExampleArity | src/main/java/com/jetsnegovik/ftp/server/handlers/FtpHandler.java:611-614 | "1,2,3" has the wrong number of fields and is refused |
| PortArgs.PortExampleRange | src/main/java/com/jetsnegovik/ftp/server/handlers/FtpHandler.java:623-625 | "1,2,3,4,5,300" has a field above 255 and is refused |
| PortArgs.PortIgnoresTrailingComma | src/main/java/com/jetsnegovik/ftp/server/handlers/FtpHandler.java:611 | a trailing comma never changes the result, because split drops trailing empty fields |
| Text.JavaSplitOfJoin | src/main/java/com/jetsnegovik/ftp/server/handlers/FtpHandler.java:611 | split recovers the parts that were joined with the separator when none contains it and the last is non-empty |
| Text.ParseIntOfNatToString | src/main/java/com/jetsnegovik/ftp/server/handlers/FtpHandler.java:619 | Integer.parseInt reads back every number written in decimal |
| Text.UpperUtf16Length | src/main/java/com/jetsnegovik/ftp/server/handlers/FtpHandler.java:190-191 | the upper-cased argument has Java length one exactly when the argument is one character inside the Basic Multilingual Plane |
| Listing.Pad | src/main/java/com/jetsnegovik/ftp/server/handlers/FtpHandler.java:591-597 | pad(n) is max(n, 0) spaces |
| Listing.SizeField | src/main/java/com/jetsnegovik/ftp/server/handlers/FtpHandler.java:569-572 | the size column is the decimal size right-aligned in 8 columns, or the bare decimal when it is longer |
| Listing.ListFile | src/main/java/com/jetsnegovik/ftp/server/handlers/FtpHandler.java:564-589 | the sequence of writes of listFile produces exactly one entry line |
| Listing.EntryLineLayout | src/main/java/com/jetsnegovik/ftp/server/handlers/FtpHandler.java:574-588 | an entry line has 'd' or '-', then "rwxrwxrwx 1 ftp ftp ", the size column, the date, the name and a newline, each at a fixed offset from the previous column |
| Listing.EmitListing | src/main/java/com/jetsnegovik/ftp/server/handlers/FtpHandler.java:244-251 | the LIST loop writes "total n", one entry line per name in order, then CR LF |
| Listing.ListingLineCount | src/main/java/com/jetsnegovik/ftp/server/handlers/FtpHandler.java:244-251 | when no name or date holds a newline, the listing has one line per entry plus two |
| Replies.AsciiBytes | src/main/java/com/jetsnegovik/ftp/server/handlers/FtpHandler.java:649 | getBytes(ASCII) gives one byte per character, every byte below 128: an ASCII character keeps its code and any other character becomes 63 ('?') |
| Replies.ReplyLineRoundTrip | src/main/java/com/jetsnegovik/ftp/server/handlers/FtpHandler.java:646-651 | a sent reply with a three-digit code parses back into its code and its encoded text |
| Transfer.Pump | src/main/java/com/jetsnegovik/ftp/server/handlers/FtpHandler.java:330-334 | the 64 KiB read/write loop writes non-empty chunks of at most 64 KiB whose concatenation is the whole source |
| Transfer.ChunksFlatten | src/main/java/com/jetsnegovik/ftp/server/handlers/FtpHandler.java:330-334 | writing the chunks one after another reproduces the data |
| Transfer.ChunksBounded | src/main/java/com/jetsnegovik/ftp/server/handlers/FtpHandler.java:330-334 | every chunk is a non-empty buffer load of at most 64 KiB |
| Properties.EmptyLineCloses | src/main/java/com/jetsnegovik/ftp/server/handlers/FtpHandler.java:93-94 | a line with no token makes nextToken throw: nothing is sent, the state is kept and the connection closes |
| Properties.UnknownVerbChangesNothing | src/main/java/com/jetsnegovik/ftp/server/handlers/FtpHandler.java:105-106 | a verb without a handler gets "500 '<line>': command not support." and the state is kept |
| Properties.ControlBytesConcat | src/main/java/com/jetsnegovik/ftp/server/handlers/FtpHandler.java:646-651 | the control-connection bytes of two runs of events are those of the first followed by those of the second |
| Properties.ErrorIsLastLine | src/main/java/com/jetsnegovik/ftp/server/handlers/FtpHandler.java:102-104 | a CommandException is sent as one more reply line, with its code and text, after everything the handler wrote |
| Properties.UnknownVerbWire | src/main/java/com/jetsnegovik/ftp/server/handlers/FtpHandler.java:105-106 | on the wire, an unknown verb gets one reply line that reads back as code 500 and the quoted line in ASCII |
| Properties.QuitLineTokens | src/main/java/com/jetsnegovik/ftp/server/handlers/FtpHandler.java:93-94 | the line "QUIT" has verb "quit" and no arguments |
| Properties.QuitIsNotSupported | src/main/java/com/jetsnegovik/ftp/server/handlers/FtpHandler.java:100-106 | QUIT is looked up as command_quit, which does not exist, so it is answered as unsupported and changes nothing |
| Properties.QuitHandlerLogsOut | src/main/java/com/jetsnegovik/ftp/server/handlers/FtpHandler.java:502-507 | handle_quit clears username and password, says goodbye with 221, closes, and keeps every other field |
| Properties.StepRuns | src/main/java/com/jetsnegovik/ftp/server/handlers/FtpHandler.java:92-107 | a known verb runs its handler with the remaining tokens, and the dispatcher turns its CommandException into a reply |
| Properties.ArgsOfWellFormed | src/main/java/com/jetsnegovik/ftp/server/handlers/FtpHandler.java:93 | every argument token the handlers read is non-empty |
| Properties.GateBlocks | src/main/java/com/jetsnegovik/ftp/server/handlers/FtpHandler.java:640-644 | before login, every gated command answers exactly 530 and changes nothing |
| Properties.PassNeedsUser | src/main/java/com/jetsnegovik/ftp/server/handlers/FtpHandler.java:133-135 | PASS before USER answers 503 and changes nothing |
| Properties.PassOpensGate | src/main/java/com/jetsnegovik/ftp/server/handlers/FtpHandler.java:132-146 | PASS stores the password whether or not it is right, so the gate opens either way; it answers 230 exactly for morf/123 and 530 otherwise |
| Properties.RejectedPassStillServes | src/main/java/com/jetsnegovik/ftp/server/handlers/FtpHandler.java:132-159 | after a rejected PASS, a gated command such as SYST is served |
| Properties.UserSetsName | src/main/java/com/jetsnegovik/ftp/server/handlers/FtpHandler.java:118-122 | USER needs no login; it replaces the name, keeps everything else and asks for the password with 331 |
| Properties.LoginSequence | src/main/java/com/jetsnegovik/ftp/server/handlers/FtpHandler.java:118-146 | "USER morf" then "PASS 123" logs in from any state, with replies 331 then 230 |
| Properties.FailureChangesNothing | src/main/java/com/jetsnegovik/ftp/server/handlers/FtpHandler.java:118-532 | for every handler except PASS, PORT, RNFR and STOR, an unsuccessful run leaves the session and the disk unchanged |
| Properties.PortReplacesAddress | src/main/java/com/jetsnegovik/ftp/server/handlers/FtpHandler.java:207-215 | PORT always overwrites the data address; a refused argument leaves it null and answers 501 |
| Properties.TypeSetsCode | src/main/java/com/jetsnegovik/ftp/server/handlers/FtpHandler.java:188-197 | TYPE succeeds exactly for an argument of one character of the Basic Multilingual Plane, storing it upper-cased; otherwise it answers 500 and changes nothing |
| Properties.CwdMovesToDirectories | src/main/java/com/jetsnegovik/ftp/server/handlers/FtpHandler.java:278-298 | CWD succeeds exactly when the target is an existing directory; it then moves to the resolved path, which PWD reports back; otherwise 550 and no change |
| Properties.CwdToPwdStays | src/main/java/com/jetsnegovik/ftp/server/handlers/FtpHandler.java:278-298 | CWD to the current directory succeeds and changes nothing |
| Properties.MkdCreatesDirectory | src/main/java/com/jetsnegovik/ftp/server/handlers/FtpHandler.java:362-374 | MKD succeeds exactly when the target is absent and its parent is a directory, adding that one directory and quoting the resolved path; an existing target answers 550, and a failing mkdir 500 "directory could not be created", both changing nothing |
| Properties.DeleRemovesEntry | src/main/java/com/jetsnegovik/ftp/server/handlers/FtpHandler.java:440-452 | DELE succeeds exactly on an existing file or empty directory, removing only that entry; otherwise 550 and no change |
| Properties.RmdRemovesEmptyDirectory | src/main/java/com/jetsnegovik/ftp/server/handlers/FtpHandler.java:517-532 | RMD succeeds exactly on an existing empty directory, removing only it; a file answers 550 "not a directory" |
| Properties.RnfrAlwaysRecords | src/main/java/com/jetsnegovik/ftp/server/handlers/FtpHandler.java:462-471 | RNFR records the pending source before checking it, so even a failing RNFR replaces it; 350 exactly when it exists |
| Properties.RntoWithoutRnfrCloses | src/main/java/com/jetsnegovik/ftp/server/handlers/FtpHandler.java:481-492 | RNTO with no pending source dereferences null and closes the connection without a reply |
| Properties.RntoRenames | src/main/java/com/jetsnegovik/ftp/server/handlers/FtpHandler.java:481-492 | RNTO succeeds exactly when the rename is possible; it then moves the source, clears the pending source and keeps unrelated entries; otherwise 550 and no change |
| Properties.RntoSuccessClears | src/main/java/com/jetsnegovik/ftp/server/handlers/FtpHandler.java:486-488 | after a successful RNTO, nothing is pending |
| Properties.SecondRntoCloses | src/main/java/com/jetsnegovik/ftp/server/handlers/FtpHandler.java:481-492 | after a successful RNTO, a second RNTO closes the connection |
| Properties.RetrSendsFile | src/main/java/com/jetsnegovik/ftp/server/handlers/FtpHandler.java:308-352 | RETR sends exactly the file's bytes in chunks of at most 64 KiB between 150 and 226; a path the OS cannot walk or that is not a file answers 550, a refused connection 553, a missing address closes; the state never changes |
| Properties.StorStoresUpload | src/main/java/com/jetsnegovik/ftp/server/handlers/FtpHandler.java:384-430 | STOR answers 550 for a path the OS cannot walk or an existing target; otherwise it creates the file, which holds exactly the uploaded bytes once connected; a missing address closes and a refused connection answers 553, both leaving it empty |
| Properties.StorThenRetr | src/main/java/com/jetsnegovik/ftp/server/handlers/FtpHandler.java:308-430 | what STOR stored under a path, a later RETR of that path sends back byte for byte |
| Properties.DotDotNeedsDirectory | src/main/java/com/jetsnegovik/ftp/server/handlers/FtpHandler.java:308-430 | RETR /x/../a and STOR /x/../a with x not a directory answer 550 "Not a plain file." and 550 "No such file.", whatever the root's entry a is |
| Properties.DotNeedsDirectory | src/main/java/com/jetsnegovik/ftp/server/handlers/FtpHandler.java:318-324 | RETR /f/. of a plain file f answers 550 "Not a plain file." |
| Properties.ListReplies | src/main/java/com/jetsnegovik/ftp/server/handlers/FtpHandler.java:225-268 | LIST never changes state; a missing address or type closes, a refused connection answers 425; otherwise 150, the listing, 226; a path that is not walked to a directory lists as "total 0" |
| Properties.ListDescribesChildren | src/main/java/com/jetsnegovik/ftp/server/handlers/FtpHandler.java:238-251 | listing a directory describes each child once, in File.list order, with its name, 'd' exactly for directories and a file's size, in one line per entry |
| Properties.ResolvedCommandsStayInRoot | src/main/java/com/jetsnegovik/ftp/server/handlers/FtpHandler.java:534-608 | CWD, MKD, RMD, DELE, RNFR and RNTO change nothing outside the server root and keep the session invariant |
| Properties.StorCanWriteOutsideRoot | src/main/java/com/jetsnegovik/ftp/server/handlers/FtpHandler.java:388-402 | a STOR argument of enough "/.." segments creates a file outside the server root |
| Properties.RetrCanReadOutsideRoot | src/main/java/com/jetsnegovik/ftp/server/handlers/FtpHandler.java:312-326 | likewise, RETR sends the content of a file outside the server root |
| Properties.StorKeepsValid | src/main/java/com/jetsnegovik/ftp/server/handlers/FtpHandler.java:384-430 | STOR keeps the disk a tree and the session invariant |
| Properties.StepPreservesValid | src/main/java/com/jetsnegovik/ftp/server/handlers/FtpHandler.java:92-107 | every command line keeps the session invariant: resolved working directory, tree-shaped disk, pending rename inside the root |
| Properties.InitialValid | src/main/java/com/jetsnegovik/ftp/server/handlers/FtpHandler.java:61-67 | the initial values of the fields, on a valid root and a tree-shaped disk, satisfy the session invariant, so with StepPreservesValid every reachable session does |
| Server.Disk.MakeDirectory | src/main/java/com/jetsnegovik/ftp/server/handlers/FtpHandler.java:370 | the disk becomes the result of mkdir, and the method reports whether it succeeded |
| Server.Disk.Remove | src/main/java/com/jetsnegovik/ftp/server/handlers/FtpHandler.java:448 | the disk becomes the result of delete, and the method reports whether it succeeded |
| Server.Disk.RenameTo | src/main/java/com/jetsnegovik/ftp/server/handlers/FtpHandler.java:486 | the disk becomes the result of renameTo, and the method reports whether it succeeded |
| Server.Disk.OpenOutput | src/main/java/com/jetsnegovik/ftp/server/handlers/FtpHandler.java:402 | the disk gains the new empty file exactly when FileOutputStream can be opened |
| Server.Disk.Append | src/main/java/com/jetsnegovik/ftp/server/handlers/FtpHandler.java:409-412 | writing appends the bytes to the file and changes nothing else |
| Server.Session.constructor | src/main/java/com/jetsnegovik/ftp/server/handlers/FtpHandler.java:61-67 | the session starts from the static fields' initial values: nobody logged in, at "/", no address, type or pending rename |
| Server.Session.CheckLogin | src/main/java/com/jetsnegovik/ftp/server/handlers/FtpHandler.java:640-644 | checkLogin passes exactly when both username and password are set |
| Server.Session.ResolvedFile | src/main/java/com/jetsnegovik/ftp/server/handlers/FtpHandler.java:599-608 | an argument becomes its resolved path and the OS path of createNativePath(resolvePath(arg)) |
| Server.Session.CommandUser | src/main/java/com/jetsnegovik/ftp/server/handlers/FtpHandler.java:118-122 | the new fields, replies and outcome are those of `User` (see UserSetsName) |
| Server.Session.CommandPass | src/main/java/com/jetsnegovik/ftp/server/handlers/FtpHandler.java:132-146 | the new fields, replies and outcome are those of `Pass` (see PassOpensGate) |
| Server.Session.CommandSyst | src/main/java/com/jetsnegovik/ftp/server/handlers/FtpHandler.java:156-159 | after login, answers 215 UNIX and changes nothing |
| Server.Session.CommandClnt | src/main/java/com/jetsnegovik/ftp/server/handlers/FtpHandler.java:169-173 | after login, answers 215 and changes nothing |
| Server.Session.CommandPwd | src/main/java/com/jetsnegovik/ftp/server/handlers/FtpHandler.java:183-186 | after login, answers 257 with the working directory and changes nothing |
| Server.Session.CommandType | src/main/java/com/jetsnegovik/ftp/server/handlers/FtpHandler.java:188-197 | the new fields and outcome are those of `Type` (see TypeSetsCode) |
| Server.Session.CommandPort | src/main/java/com/jetsnegovik/ftp/server/handlers/FtpHandler.java:207-215 | the new fields and outcome are those of `Port` (see PortReplacesAddress) |
| Server.Session.CommandList | src/main/java/com/jetsnegovik/ftp/server/handlers/FtpHandler.java:225-268 | what is written is that of `List` (see ListReplies, ListDescribesChildren) |
| Server.Session.CommandCwd | src/main/java/com/jetsnegovik/ftp/server/handlers/FtpHandler.java:278-298 | the new working directory and replies are those of `Cwd` (see CwdMovesToDirectories) |
| Server.Session.CommandRetr | src/main/java/com/jetsnegovik/ftp/server/handlers/FtpHandler.java:308-352 | the chunks sent and the replies are those of `Retr` (see RetrSendsFile) |
| Server.Session.CommandMkd | src/main/java/com/jetsnegovik/ftp/server/handlers/FtpHandler.java:362-374 | the new disk and replies are those of `Mkd` (see MkdCreatesDirectory) |
| Server.Session.CommandStor | src/main/java/com/jetsnegovik/ftp/server/handlers/FtpHandler.java:384-430 | the chunked write loop leaves the disk and replies of `Stor` (see StorStoresUpload) |
| Server.Session.CommandDele | src/main/java/com/jetsnegovik/ftp/server/handlers/FtpHandler.java:440-452 | the new disk and replies are those of `Dele` (see DeleRemovesEntry) |
| Server.Session.CommandRnfr | src/main/java/com/jetsnegovik/ftp/server/handlers/FtpHandler.java:462-471 | the pending source and replies are those of `Rnfr` (see RnfrAlwaysRecords) |
| Server.Session.CommandRnto | src/main/java/com/jetsnegovik/ftp/server/handlers/FtpHandler.java:481-492 | the new disk, pending source and replies are those of `Rnto` (see RntoRenames) |
| Server.Session.HandleQuit | src/main/java/com/jetsnegovik/ftp/server/handlers/FtpHandler.java:502-507 | the fields and outcome are those of `Quit` (see QuitHandlerLogsOut) |
| Server.Session.CommandRmd | src/main/java/com/jetsnegovik/ftp/server/handlers/FtpHandler.java:517-532 | the new disk and replies are those of `Rmd` (see RmdRemovesEmptyDirectory) |
| Server.Session.Invoke | src/main/java/com/jetsnegovik/ftp/server/handlers/FtpHandler.java:99-101 | invoking the handler that a known verb names has the effect that the dispatch table gives for that verb |
| Server.Session.ChannelRead | src/main/java/com/jetsnegovik/ftp/server/handlers/FtpHandler.java:92-107 | one line read on the channel leaves the session, the disk and the output exactly as `Step` describes (see StepPreservesValid) |

## Left out

- I/O errors in the middle of a transfer are not modelled. A data connection either accepts (`Env.connects`) or is refused before any byte moves.
- The IOException path of LIST (550 when the listing cannot be written) is not modelled, for the same reason.
- The platform default charset used for type 'I' listings is not modelled; it is taken as the identity. Other types use the ASCII encoder.
- `SimpleDateFormat` and `File.lastModified` are not modelled. The rendered date of an entry is the input `Env.dateOf`.
- `File.length` of a directory is the input `Env.dirLength`.
- The names returned by `File.list`, in their order, are the input `Env.names`.
- The bytes a client uploads are the input `Env.upload`.
- Server.Session.CommandStor: reads the upload in 64 KiB loads rather than in the socket's own read sizes. Only the stored content, which does not depend on those sizes, is stated.
- File permissions are not modelled: every operation that the path structure allows succeeds.
- Symbolic links are not modelled; the disk walk treats every directory as a plain directory.
- Case mapping: `toLowerCase` and `toUpperCase` map ASCII letters only, and non-ASCII characters are left unchanged. The model assumes a default locale whose rules for ASCII letters are the plain ones; in a Turkish locale `"LIST".toLowerCase()` is "lıst", so the source answers unsupported where the model runs command_list. Java also maps those, so the source can differ: `TYPE ß` upper-cases to "SS" and answers 500 where the model answers 215, and a verb written with the Kelvin sign, `M\u212AD x`, lower-cases to "mkd" and runs command_mkd where the model answers unsupported.
- String lengths are counted in characters. Java counts UTF-16 code units, and only TYPE's length check depends on the difference, so `Commands.Type` counts units (`Text.Utf16Length`), while `substring(5)` and the empty-argument checks agree whichever way they are counted.
- `Integer.parseInt` is modelled on ASCII digits only; non-ASCII Unicode digits are not accepted.
- The handler's fields are `static` in the source, so every connection shares one session. The model holds one session; sharing between connections and concurrency are not modelled.
- Logging is not modelled.
- Lookup by reflection is modelled as the dispatch table over the `command_*` names and `handle_quit`. Nothing else that reflection could reach is modelled.
- The 220 greeting of `channelActive` is not modelled.
- `exceptionCaught` appears only as its effect: the connection closes.
- `ServerInitializer`, `FtpType` and `CommandException` are not part of this model, beyond the code and text a `CommandException` carries.
- `UnknownHostException` cannot arise for a four-byte address and is not modelled.
- The `(byte)` cast of an octet into `InetAddress` is not modelled; octets stay 0..255, which name the same address.
- The `finally` blocks that close streams and sockets are not modelled; they swallow any error they meet.
