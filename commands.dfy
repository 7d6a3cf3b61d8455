/**
 * The FTP control channel as a function of the session state: one
 * function per `command_*` handler of FtpHandler, giving the new state,
 * the replies and data written, and how the handler ended, and the
 * dispatcher of channelRead0 that picks the handler from the verb.
 */
module Commands {
  import opened Wrappers
  import opened Text
  import opened Paths
  import opened FileSystem
  import opened PortArgs
  import opened Listing
  import opened Transfer

  /**
   * The handler's fields; None stands for Java's null. A pending rename
   * (renameFile) is a java.io.File, kept here as the OS path it names.
   */
  datatype State = State(
    username: Option<string>,
    password: Option<string>,
    currentDir: string,
    address: Option<Address>,
    ftpType: Option<char>,
    renameFile: Option<Path>,
    fs: Fs)

  /** The state of a fresh handler on a given disk: nobody logged in, at "/". */
  function Initial(fs: Fs): State {
    State(None, None, "/", None, None, None, fs)
  }

  /** What is written to the client: a reply on the control connection, or data on a data connection. */
  datatype Event =
    | Reply(code: nat, text: string)
    | Data(bytes: seq<byte>)
    | ListText(text: string)

  /**
   * How a handler ends: normally, by throwing a CommandException (the
   * dispatcher turns it into a reply), or by any other exception, which
   * ends in exceptionCaught closing the connection.
   */
  datatype Outcome = Ok | Error(code: nat, text: string) | Close

  datatype Effect = Effect(st: State, events: seq<Event>, outcome: Outcome)

  /**
   * What the handler cannot see in the state: whether the client accepts
   * the data connection, the bytes it uploads, the names File.list returns
   * for the listed directory (in its order), File.length of a directory,
   * and the rendered modification date of an entry.
   */
  datatype Env = Env(
    connects: bool,
    upload: seq<byte>,
    names: seq<string>,
    dirLength: nat,
    dateOf: Path -> string)

  /** The state after one line, everything written, and whether the connection was closed. */
  datatype StepResult = StepResult(st: State, events: seq<Event>, closed: bool)

  // ---------------------------------------------------------------- shared pieces

  /** checkLogin: both username and password have been set. */
  predicate LoggedIn(st: State) {
    st.username.Some? && st.password.Some?
  }

  /** checkLogin's CommandException. */
  const LoginRequired: Outcome := Error(530, "Please login with username and password.")

  function NotLoggedIn(st: State): Effect {
    Effect(st, [], LoginRequired)
  }

  function Fail(st: State, code: nat, text: string): Effect {
    Effect(st, [], Error(code, text))
  }

  function Done(st: State, events: seq<Event>): Effect {
    Effect(st, events, Ok)
  }

  function Closed(st: State): Effect {
    Effect(st, [], Close)
  }

  /**
   * The OS path of a resolved virtual path (createNativePath of resolvePath's
   * result). It has no "." or "..", so the disk walk reaches exactly this
   * path (FileSystem.LookupOfResolved).
   */
  function Target(baseDir: string, st: State, arg: string): Path
    requires |arg| > 0
  {
    var v := Resolve(st.currentDir, arg);
    ResolveShape(st.currentDir, arg);
    OsPath(CreateNativePath(baseDir, st.currentDir, v))
  }

  /**
   * The native path RETR and STOR open: createNativePath of everything
   * after the first five characters; None where substring(5) or
   * createNativePath throws.
   */
  function TransferPath(baseDir: string, st: State, line: string): Option<string> {
    if |line| <= 5 then None
    else Some(CreateNativePath(baseDir, st.currentDir, line[5..]))
  }

  const Opening := Reply(150, "Opening data connection.")
  const Complete := Reply(226, "Transfer complete.")

  // ---------------------------------------------------------------- handlers

  /** command_user: no login check; the next token becomes the username. */
  function User(st: State, args: seq<string>): Effect {
    if |args| == 0 then Closed(st)
    else Done(st.(username := Some(args[0])), [Reply(331, "Password required for " + args[0] + ".")])
  }

  /**
   * command_pass: the password is stored (the empty string when absent)
   * before it is checked against the single account morf/123.
   */
  function Pass(st: State, args: seq<string>): Effect {
    if st.username.None? then Fail(st, 503, "Login with username first.")
    else
      var password := if |args| > 0 then args[0] else "";
      var st' := st.(password := Some(password));
      if !(st.username.value == "morf" && password == "123") then Fail(st', 530, "Login incorrect.")
      else Done(st', [Reply(230, "Authorization has been successfully.")])
  }

  function Syst(st: State): Effect {
    if !LoggedIn(st) then NotLoggedIn(st) else Done(st, [Reply(215, "UNIX")])
  }

  function Clnt(st: State): Effect {
    if !LoggedIn(st) then NotLoggedIn(st) else Done(st, [Reply(215, "CLNT command successful.")])
  }

  function Pwd(st: State): Effect {
    if !LoggedIn(st) then NotLoggedIn(st) else Done(st, [Reply(257, st.currentDir)])
  }

  /**
   * command_type: the upper-cased argument must have length one, in UTF-16
   * units, and that character becomes the type.
   */
  function Type(st: State, args: seq<string>): Effect {
    if !LoggedIn(st) then NotLoggedIn(st)
    else if |args| == 0 then Closed(st)
    else
      var arg := Upper(args[0]);
      if Utf16Length(arg) != 1 then Fail(st, 500, "TYPE: invalid argument '" + arg + "'")
      else
        Utf16LengthOne(arg);
        Done(st.(ftpType := Some(arg[0])), [Reply(215, "Type set to " + [arg[0]])])
  }

  /** command_port: addressClient is overwritten with the parse, null included. */
  function Port(st: State, args: seq<string>): Effect {
    if !LoggedIn(st) then NotLoggedIn(st)
    else if |args| == 0 then Closed(st)
    else
      var address := PortAddress(args[0]);
      var st' := st.(address := address);
      if address.None? then Fail(st', 501, "Syntax error in parameters or arguments")
      else Done(st', [Reply(215, "PORT command successful.")])
  }

  /** File.length: a file's size, an OS-dependent size for a directory, 0 for a missing entry. */
  function Length(fs: Fs, env: Env, p: Path): nat {
    if IsFile(fs, p) then |fs[p].content| else if IsDir(fs, p) then env.dirLength else 0
  }

  /**
   * What listFile reads from `new File(dir, name)`. It is only reached for
   * the names File.list returns for an existing directory, and for such a
   * name the disk walk reaches the lexical path (FileSystem.LookupChild).
   */
  function EntryOf(fs: Fs, env: Env, native: string, name: string): Entry {
    var p := OsPath(native + "/" + name);
    Entry(IsDir(fs, p), Length(fs, env, p), env.dateOf(p), name)
  }

  function Entries(fs: Fs, env: Env, native: string, names: seq<string>): (r: seq<Entry>)
    ensures |r| == |names|
  {
    seq(|names|, i requires 0 <= i < |names| => EntryOf(fs, env, native, names[i]))
  }

  /**
   * FtpType.getStreamWriter: type I writes in the platform charset (taken
   * here as writing the characters unchanged), any other type in ASCII.
   */
  function Encode(ftpType: char, text: string): string {
    if ftpType == 'I' then text else ToAscii(text)
  }

  /**
   * command_list: the argument or the working directory, anchored under
   * the root without resolvePath. A path that is not a directory lists as
   * empty. The address is dereferenced before connecting and the type
   * after, so a missing one closes the connection.
   */
  function List(baseDir: string, env: Env, st: State, args: seq<string>): Effect {
    if !LoggedIn(st) then NotLoggedIn(st)
    else
      var path := if |args| > 0 then args[0] else st.currentDir;
      if |path| == 0 then Closed(st)
      else
        var native := CreateNativePath(baseDir, st.currentDir, path);
        var names := if IsDirAt(st.fs, native) then env.names else [];
        if st.address.None? then Closed(st)
        else if !env.connects then Fail(st, 425, "Can't open data connection.")
        else if st.ftpType.None? then Closed(st)
        else
          var text := ListingText(Entries(st.fs, env, native, names));
          Done(st, [Opening, ListText(Encode(st.ftpType.value, text)), Complete])
  }

  /** command_cwd: the resolved argument becomes the working directory if it is an existing directory. */
  function Cwd(baseDir: string, st: State, args: seq<string>): Effect {
    if !LoggedIn(st) then NotLoggedIn(st)
    else if |args| == 0 then Closed(st)
    else
      var arg := args[0];
      var newDir := if |arg| == 0 then "/" else arg;
      var v := Resolve(st.currentDir, newDir);
      var p := Target(baseDir, st, newDir);
      if p !in st.fs then Fail(st, 550, arg + ": no such directory")
      else if !IsDir(st.fs, p) then Fail(st, 550, arg + ": not a directory")
      else Done(st.(currentDir := v), [Reply(250, "CWD command successful.")])
  }

  function DataEvents(chunks: seq<seq<byte>>): (r: seq<Event>)
    ensures |r| == |chunks|
    ensures forall i :: 0 <= i < |r| ==> r[i] == Data(chunks[i])
  {
    seq(|chunks|, i requires 0 <= i < |chunks| => Data(chunks[i]))
  }

  /**
   * command_retr: the text after "RETR " names the file, anchored without
   * resolvePath; it must be a plain file. The file is then sent in 64 KiB
   * buffer loads between 150 and 226.
   */
  function Retr(baseDir: string, env: Env, st: State, line: string): Effect {
    if !LoggedIn(st) then NotLoggedIn(st)
    else match TransferPath(baseDir, st, line)
      case None => Closed(st)
      case Some(native) =>
        if !IsFileAt(st.fs, native) then Fail(st, 550, "Not a plain file.")
        else if st.address.None? then Closed(st)
        else if !env.connects then Fail(st, 553, "IO exception")
        else Done(st, [Opening] + DataEvents(Chunks(st.fs[Lookup(st.fs, native).value].content)) + [Complete])
  }

  /** command_mkd: the resolved path must not exist, then File.mkdir must succeed. */
  function Mkd(baseDir: string, st: State, args: seq<string>): Effect {
    if !LoggedIn(st) then NotLoggedIn(st)
    else if |args| == 0 then Closed(st)
    else
      var arg := args[0];
      if |arg| == 0 then Closed(st)
      else
        var v := Resolve(st.currentDir, arg);
        var p := Target(baseDir, st, arg);
        if p in st.fs then Fail(st, 550, arg + ": file exists")
        else match Mkdir(st.fs, p)
          case None => Fail(st, 500, arg + ": directory could not be created")
          case Some(fs') => Done(st.(fs := fs'), [Reply(257, "\"" + v + "\" directory created")])
  }

  /**
   * command_stor: the target (anchored without resolvePath) must not exist.
   * The FileOutputStream creates it empty before the data connection is
   * opened, so a missing address or a refused connection leaves that empty
   * file behind; otherwise it receives the uploaded bytes. A path the OS
   * cannot walk does not exist, and opening it for writing fails as well.
   */
  function Stor(baseDir: string, env: Env, st: State, line: string): Effect {
    if !LoggedIn(st) then NotLoggedIn(st)
    else match TransferPath(baseDir, st, line)
      case None => Closed(st)
      case Some(native) =>
        match Lookup(st.fs, native)
          case None => Fail(st, 550, "No such file.")
          case Some(p) =>
            if p in st.fs then Fail(st, 550, "File exists in that location.")
            else match CreateFile(st.fs, p)
              case None => Fail(st, 550, "No such file.")
              case Some(created) =>
                if st.address.None? then Closed(st.(fs := created))
                else if !env.connects then Fail(st.(fs := created), 553, "IO exception")
                else Done(st.(fs := created[p := File(env.upload)]), [Opening, Complete])
  }

  /** command_dele: an existing entry removed by File.delete (which also removes an empty directory). */
  function Dele(baseDir: string, st: State, args: seq<string>): Effect {
    if !LoggedIn(st) then NotLoggedIn(st)
    else if |args| == 0 then Closed(st)
    else
      var arg := args[0];
      if |arg| == 0 then Closed(st)
      else
        var p := Target(baseDir, st, arg);
        if p !in st.fs then Fail(st, 550, arg + ": file does not exist")
        else match Delete(st.fs, p)
          case None => Fail(st, 550, arg + ": could not delete file")
          case Some(fs') => Done(st.(fs := fs'), [Reply(250, "DELE command successful.")])
  }

  /** command_rnfr: renameFile is set before the existence check, so it is set even when 550 follows. */
  function Rnfr(baseDir: string, st: State, args: seq<string>): Effect {
    if !LoggedIn(st) then NotLoggedIn(st)
    else if |args| == 0 then Closed(st)
    else
      var arg := args[0];
      if |arg| == 0 then Closed(st)
      else
        var p := Target(baseDir, st, arg);
        var st' := st.(renameFile := Some(p));
        if p !in st.fs then Fail(st', 550, arg + ": file does not exist")
        else Done(st', [Reply(350, "Pending file")])
  }

  /** command_rnto: File.renameTo on the pending file; a null renameFile is dereferenced and closes. */
  function Rnto(baseDir: string, st: State, args: seq<string>): Effect {
    if !LoggedIn(st) then NotLoggedIn(st)
    else if |args| == 0 then Closed(st)
    else
      var arg := args[0];
      if |arg| == 0 then Closed(st)
      else
        var p := Target(baseDir, st, arg);
        if st.renameFile.None? then Closed(st)
        else match Rename(st.fs, st.renameFile.value, p)
          case None => Fail(st, 550, arg + ": file does not exist")
          case Some(fs') => Done(st.(renameFile := None, fs := fs'), [Reply(250, "CWD rnto success")])
  }

  /** command_rmd: the resolved path must exist, be a directory, and be removable. */
  function Rmd(baseDir: string, st: State, args: seq<string>): Effect {
    if !LoggedIn(st) then NotLoggedIn(st)
    else if |args| == 0 then Closed(st)
    else
      var arg := args[0];
      if |arg| == 0 then Closed(st)
      else
        var p := Target(baseDir, st, arg);
        if p !in st.fs then Fail(st, 550, arg + ": directory does not exist")
        else if !IsDir(st.fs, p) then Fail(st, 550, arg + ": not a directory")
        else match Delete(st.fs, p)
          case None => Fail(st, 550, arg + ": could not remove directory")
          case Some(fs') => Done(st.(fs := fs'), [Reply(250, "RMD command successful.")])
  }

  /** handle_quit: forgets the login, says goodbye and closes; its name keeps dispatch from reaching it. */
  function Quit(st: State): Effect {
    Effect(st.(username := None, password := None), [Reply(221, "Goodbye...")], Close)
  }

  // ---------------------------------------------------------------- dispatch

  /** The verbs for which a `command_<verb>` method exists. */
  const Verbs: set<string> :=
    {"user", "pass", "syst", "clnt", "pwd", "type", "port", "list",
     "cwd", "retr", "mkd", "stor", "dele", "rnfr", "rnto", "rmd"}

  /** The handler for a known verb, given the tokens after the verb and the whole line. */
  function Run(baseDir: string, env: Env, st: State, verb: string, args: seq<string>, line: string): Effect
    requires verb in Verbs
  {
    match verb
      case "user" => User(st, args)
      case "pass" => Pass(st, args)
      case "syst" => Syst(st)
      case "clnt" => Clnt(st)
      case "pwd" => Pwd(st)
      case "type" => Type(st, args)
      case "port" => Port(st, args)
      case "list" => List(baseDir, env, st, args)
      case "cwd" => Cwd(baseDir, st, args)
      case "retr" => Retr(baseDir, env, st, line)
      case "mkd" => Mkd(baseDir, st, args)
      case "stor" => Stor(baseDir, env, st, line)
      case "dele" => Dele(baseDir, st, args)
      case "rnfr" => Rnfr(baseDir, st, args)
      case "rnto" => Rnto(baseDir, st, args)
      case "rmd" => Rmd(baseDir, st, args)
  }

  // The dispatch table, one verb at a time.

  lemma RunUser(baseDir: string, env: Env, st: State, args: seq<string>, line: string)
    ensures Run(baseDir, env, st, "user", args, line) == User(st, args)
  {
  }

  lemma RunPass(baseDir: string, env: Env, st: State, args: seq<string>, line: string)
    ensures Run(baseDir, env, st, "pass", args, line) == Pass(st, args)
  {
  }

  lemma RunSyst(baseDir: string, env: Env, st: State, args: seq<string>, line: string)
    ensures Run(baseDir, env, st, "syst", args, line) == Syst(st)
  {
  }

  lemma RunClnt(baseDir: string, env: Env, st: State, args: seq<string>, line: string)
    ensures Run(baseDir, env, st, "clnt", args, line) == Clnt(st)
  {
  }

  lemma RunPwd(baseDir: string, env: Env, st: State, args: seq<string>, line: string)
    ensures Run(baseDir, env, st, "pwd", args, line) == Pwd(st)
  {
  }

  lemma RunType(baseDir: string, env: Env, st: State, args: seq<string>, line: string)
    ensures Run(baseDir, env, st, "type", args, line) == Type(st, args)
  {
  }

  lemma RunPort(baseDir: string, env: Env, st: State, args: seq<string>, line: string)
    ensures Run(baseDir, env, st, "port", args, line) == Port(st, args)
  {
  }

  lemma RunList(baseDir: string, env: Env, st: State, args: seq<string>, line: string)
    ensures Run(baseDir, env, st, "list", args, line) == List(baseDir, env, st, args)
  {
  }

  lemma RunRetr(baseDir: string, env: Env, st: State, args: seq<string>, line: string)
    ensures Run(baseDir, env, st, "retr", args, line) == Retr(baseDir, env, st, line)
  {
  }

  lemma RunStor(baseDir: string, env: Env, st: State, args: seq<string>, line: string)
    ensures Run(baseDir, env, st, "stor", args, line) == Stor(baseDir, env, st, line)
  {
  }

  lemma RunCwd(baseDir: string, env: Env, st: State, args: seq<string>, line: string)
    ensures Run(baseDir, env, st, "cwd", args, line) == Cwd(baseDir, st, args)
  {
  }

  lemma RunMkd(baseDir: string, env: Env, st: State, args: seq<string>, line: string)
    ensures Run(baseDir, env, st, "mkd", args, line) == Mkd(baseDir, st, args)
  {
  }

  lemma RunRmd(baseDir: string, env: Env, st: State, args: seq<string>, line: string)
    ensures Run(baseDir, env, st, "rmd", args, line) == Rmd(baseDir, st, args)
  {
  }

  lemma RunDele(baseDir: string, env: Env, st: State, args: seq<string>, line: string)
    ensures Run(baseDir, env, st, "dele", args, line) == Dele(baseDir, st, args)
  {
  }

  lemma RunRnfr(baseDir: string, env: Env, st: State, args: seq<string>, line: string)
    ensures Run(baseDir, env, st, "rnfr", args, line) == Rnfr(baseDir, st, args)
  {
  }

  lemma RunRnto(baseDir: string, env: Env, st: State, args: seq<string>, line: string)
    ensures Run(baseDir, env, st, "rnto", args, line) == Rnto(baseDir, st, args)
  {
  }

  /** A CommandException becomes a reply; any other exception closes the connection. */
  function Finish(e: Effect): (r: StepResult)
    ensures r.st == e.st
    ensures r.closed <==> e.outcome.Close?
    ensures e.outcome.Error? ==> r.events == e.events + [Reply(e.outcome.code, e.outcome.text)]
    ensures !e.outcome.Error? ==> r.events == e.events
  {
    match e.outcome
      case Ok => StepResult(e.st, e.events, false)
      case Error(code, text) => StepResult(e.st, e.events + [Reply(code, text)], false)
      case Close => StepResult(e.st, e.events, true)
  }

  /** The reply for a verb without a `command_` method. */
  function Unsupported(line: string): Event {
    Reply(500, "'" + line + "': command not support.")
  }

  /**
   * channelRead0 for one line: the first whitespace token, lower-cased,
   * picks the handler; a line without tokens makes nextToken throw, which
   * closes the connection.
   */
  function Step(baseDir: string, env: Env, st: State, line: string): StepResult {
    var tokens := Tokens(line, Whitespace);
    if |tokens| == 0 then StepResult(st, [], true)
    else
      var verb := Lower(tokens[0]);
      if verb !in Verbs then StepResult(st, [Unsupported(line)], false)
      else Finish(Run(baseDir, env, st, verb, tokens[1..], line))
  }

  /** The verb a line dispatches on, when it has one. */
  function VerbOf(line: string): Option<string> {
    var tokens := Tokens(line, Whitespace);
    if |tokens| == 0 then None else Some(Lower(tokens[0]))
  }

  /** The tokens after the verb, which the handlers' nextToken calls consume. */
  function ArgsOf(line: string): seq<string> {
    var tokens := Tokens(line, Whitespace);
    if |tokens| == 0 then [] else tokens[1..]
  }

  /**
   * What the session keeps true between lines: a valid server root, a
   * resolved working directory, a well-formed disk, and a pending rename
   * inside the root.
   */
  ghost predicate Valid(baseDir: string, st: State) {
    && ValidBase(baseDir)
    && IsResolved(st.currentDir)
    && Tree(st.fs)
    && (st.renameFile.Some? ==> Under(Root(baseDir), st.renameFile.value))
  }
}
