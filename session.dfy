/**
 * FtpHandler as the object it is: the static session fields updated in
 * place by one method per `command_*` handler, over a disk those methods
 * change through java.io.File. Every method is proved to leave the fields
 * and the disk, and to write the replies, that the handler function of
 * the same name in Commands describes, so what Properties proves about
 * those functions holds of the methods.
 */
module Server {
  import opened Wrappers
  import opened Text
  import opened Paths
  import opened FileSystem
  import opened PortArgs
  import opened Listing
  import opened Transfer
  import opened Commands

  /** The disk, as the java.io.File calls the handler makes see and change it. */
  class Disk {
    var nodes: Fs

    constructor (fs: Fs)
      ensures nodes == fs
    {
      nodes := fs;
    }

    /** File.mkdir. */
    method MakeDirectory(p: Path) returns (ok: bool)
      modifies this
      ensures ok == Mkdir(old(nodes), p).Some?
      ensures nodes == if ok then Mkdir(old(nodes), p).value else old(nodes)
    {
      if p in nodes || |p| == 0 || !IsDir(nodes, Parent(p)) {
        return false;
      }
      nodes := nodes[p := Dir];
      return true;
    }

    /** File.delete. */
    method Remove(p: Path) returns (ok: bool)
      modifies this
      ensures ok == Delete(old(nodes), p).Some?
      ensures nodes == if ok then Delete(old(nodes), p).value else old(nodes)
    {
      if p !in nodes || |p| == 0 || (nodes[p].Dir? && HasChildren(nodes, p)) {
        return false;
      }
      nodes := nodes - {p};
      return true;
    }

    /** File.renameTo. */
    method RenameTo(src: Path, dst: Path) returns (ok: bool)
      modifies this
      ensures ok == Rename(old(nodes), src, dst).Some?
      ensures nodes == if ok then Rename(old(nodes), src, dst).value else old(nodes)
    {
      if !CanRename(nodes, src, dst) {
        return false;
      }
      if src != dst {
        nodes := Move(nodes, src, dst);
      }
      return true;
    }

    /** `new FileOutputStream(file)` on a missing file: creates it empty, or throws FileNotFoundException. */
    method OpenOutput(p: Path) returns (ok: bool)
      modifies this
      ensures ok == CreateFile(old(nodes), p).Some?
      ensures nodes == if ok then CreateFile(old(nodes), p).value else old(nodes)
    {
      if |p| == 0 || !IsDir(nodes, Parent(p)) || IsDir(nodes, p) {
        return false;
      }
      nodes := nodes[p := File([])];
      return true;
    }

    /** FileOutputStream.write: the bytes go to the end of the open file. */
    method Append(p: Path, bytes: seq<byte>)
      requires IsFile(nodes, p)
      modifies this
      ensures nodes == old(nodes)[p := File(old(nodes)[p].content + bytes)]
    {
      nodes := nodes[p := File(nodes[p].content + bytes)];
    }
  }

  /** The handler's fields (FtpHandler.java:61-67) and the disk it serves. */
  class Session {
    const baseDir: string
    const disk: Disk
    var username: Option<string>
    var password: Option<string>
    var currentDir: string
    var address: Option<Address>
    var ftpType: Option<char>
    var renameFile: Option<Path>

    /** The fields and the disk, as the state the handler functions work on. */
    function Model(): State
      reads this, disk
    {
      State(username, password, currentDir, address, ftpType, renameFile, disk.nodes)
    }

    /** A handler at the start: every field null, the working directory "/". */
    constructor (baseDir: string, disk: Disk)
      ensures this.baseDir == baseDir && this.disk == disk
      ensures Model() == Initial(disk.nodes)
    {
      this.baseDir := baseDir;
      this.disk := disk;
      username, password := None, None;
      currentDir := "/";
      address, ftpType, renameFile := None, None, None;
    }

    /** checkLogin: whether it lets the handler go on. */
    method CheckLogin() returns (ok: bool)
      ensures ok == LoggedIn(Model())
    {
      ok := username.Some? && password.Some?;
    }

    /** The OS path of an argument that resolvePath normalises first. */
    method ResolvedFile(arg: string) returns (path: string, file: Path)
      requires |arg| > 0
      ensures path == Resolve(currentDir, arg) && file == Target(baseDir, Model(), arg)
    {
      path := ResolvePath(currentDir, arg);
      ResolveShape(currentDir, arg);
      file := OsPath(CreateNativePath(baseDir, currentDir, path));
    }

    method CommandUser(args: seq<string>) returns (events: seq<Event>, outcome: Outcome)
      modifies this
      ensures Effect(Model(), events, outcome) == User(old(Model()), args)
    {
      if |args| == 0 {
        return [], Close;
      }
      username := Some(args[0]);
      return [Reply(331, "Password required for " + args[0] + ".")], Ok;
    }

    method CommandPass(args: seq<string>) returns (events: seq<Event>, outcome: Outcome)
      modifies this
      ensures Effect(Model(), events, outcome) == Pass(old(Model()), args)
    {
      if username.None? {
        return [], Error(503, "Login with username first.");
      }
      if |args| > 0 {
        password := Some(args[0]);
      } else {
        password := Some("");
      }
      if !(username.value == "morf" && password.value == "123") {
        return [], Error(530, "Login incorrect.");
      }
      return [Reply(230, "Authorization has been successfully.")], Ok;
    }

    method CommandSyst() returns (events: seq<Event>, outcome: Outcome)
      ensures Effect(Model(), events, outcome) == Syst(Model())
    {
      var ok := CheckLogin();
      if !ok {
        return [], LoginRequired;
      }
      return [Reply(215, "UNIX")], Ok;
    }

    method CommandClnt() returns (events: seq<Event>, outcome: Outcome)
      ensures Effect(Model(), events, outcome) == Clnt(Model())
    {
      var ok := CheckLogin();
      if !ok {
        return [], LoginRequired;
      }
      return [Reply(215, "CLNT command successful.")], Ok;
    }

    method CommandPwd() returns (events: seq<Event>, outcome: Outcome)
      ensures Effect(Model(), events, outcome) == Pwd(Model())
    {
      var ok := CheckLogin();
      if !ok {
        return [], LoginRequired;
      }
      return [Reply(257, currentDir)], Ok;
    }

    method CommandType(args: seq<string>) returns (events: seq<Event>, outcome: Outcome)
      modifies this
      ensures Effect(Model(), events, outcome) == Type(old(Model()), args)
    {
      var ok := CheckLogin();
      if !ok {
        return [], LoginRequired;
      }
      if |args| == 0 {
        return [], Close;
      }
      var arg := Upper(args[0]);
      if Utf16Length(arg) != 1 {
        return [], Error(500, "TYPE: invalid argument '" + arg + "'");
      }
      Utf16LengthOne(arg);
      var code := arg[0];
      ftpType := Some(code);
      return [Reply(215, "Type set to " + [code])], Ok;
    }

    method CommandPort(args: seq<string>) returns (events: seq<Event>, outcome: Outcome)
      modifies this
      ensures Effect(Model(), events, outcome) == Port(old(Model()), args)
    {
      var ok := CheckLogin();
      if !ok {
        return [], LoginRequired;
      }
      if |args| == 0 {
        return [], Close;
      }
      address := ParsePortArgs(args[0]);
      if address.None? {
        return [], Error(501, "Syntax error in parameters or arguments");
      }
      return [Reply(215, "PORT command successful.")], Ok;
    }

    method CommandList(env: Env, args: seq<string>) returns (events: seq<Event>, outcome: Outcome)
      ensures Effect(Model(), events, outcome) == List(baseDir, env, Model(), args)
    {
      var ok := CheckLogin();
      if !ok {
        return [], LoginRequired;
      }
      var path := if |args| > 0 then args[0] else currentDir;
      if |path| == 0 {
        return [], Close;
      }
      path := CreateNativePath(baseDir, currentDir, path);
      var fileNames := if IsDirAt(disk.nodes, path) then env.names else [];
      if address.None? {
        return [], Close;
      }
      if !env.connects {
        return [], Error(425, "Can't open data connection.");
      }
      if ftpType.None? {
        return [], Close;
      }
      var text := EmitListing(Entries(disk.nodes, env, path, fileNames));
      return [Opening, ListText(Encode(ftpType.value, text)), Complete], Ok;
    }

    method CommandCwd(args: seq<string>) returns (events: seq<Event>, outcome: Outcome)
      modifies this
      ensures Effect(Model(), events, outcome) == Cwd(baseDir, old(Model()), args)
    {
      var ok := CheckLogin();
      if !ok {
        return [], LoginRequired;
      }
      if |args| == 0 {
        return [], Close;
      }
      var arg := args[0];
      var newDir := arg;
      if |newDir| == 0 {
        newDir := "/";
      }
      var resolved, file := ResolvedFile(newDir);
      if file !in disk.nodes {
        return [], Error(550, arg + ": no such directory");
      }
      if !IsDir(disk.nodes, file) {
        return [], Error(550, arg + ": not a directory");
      }
      currentDir := resolved;
      return [Reply(250, "CWD command successful.")], Ok;
    }

    method CommandRetr(env: Env, line: string) returns (events: seq<Event>, outcome: Outcome)
      ensures Effect(Model(), events, outcome) == Retr(baseDir, env, Model(), line)
    {
      var ok := CheckLogin();
      if !ok {
        return [], LoginRequired;
      }
      if |line| <= 5 {
        return [], Close;
      }
      var path := CreateNativePath(baseDir, currentDir, line[5..]);
      if !IsFileAt(disk.nodes, path) {
        return [], Error(550, "Not a plain file.");
      }
      var file := Lookup(disk.nodes, path).value;
      if address.None? {
        return [], Close;
      }
      if !env.connects {
        return [], Error(553, "IO exception");
      }
      var chunks := Pump(disk.nodes[file].content);
      return [Opening] + DataEvents(chunks) + [Complete], Ok;
    }

    method CommandMkd(args: seq<string>) returns (events: seq<Event>, outcome: Outcome)
      modifies disk
      ensures Effect(Model(), events, outcome) == Mkd(baseDir, old(Model()), args)
    {
      var ok := CheckLogin();
      if !ok {
        return [], LoginRequired;
      }
      if |args| == 0 || |args[0]| == 0 {
        return [], Close;
      }
      var arg := args[0];
      var dirPath, dir := ResolvedFile(arg);
      if dir in disk.nodes {
        return [], Error(550, arg + ": file exists");
      }
      var made := disk.MakeDirectory(dir);
      if !made {
        return [], Error(500, arg + ": directory could not be created");
      }
      return [Reply(257, "\"" + dirPath + "\" directory created")], Ok;
    }

    /**
     * command_stor: the target is opened for writing before the data
     * connection, then the loop appends each buffer load it reads.
     */
    method CommandStor(env: Env, line: string) returns (events: seq<Event>, outcome: Outcome)
      modifies disk
      ensures Effect(Model(), events, outcome) == Stor(baseDir, env, old(Model()), line)
    {
      var ok := CheckLogin();
      if !ok {
        return [], LoginRequired;
      }
      if |line| <= 5 {
        return [], Close;
      }
      var path := CreateNativePath(baseDir, currentDir, line[5..]);
      if Lookup(disk.nodes, path).None? {
        return [], Error(550, "No such file.");
      }
      var file := Lookup(disk.nodes, path).value;
      if file in disk.nodes {
        return [], Error(550, "File exists in that location.");
      }
      var isNew := disk.OpenOutput(file);
      if !isNew {
        return [], Error(550, "No such file.");
      }
      if address.None? {
        return [], Close;
      }
      if !env.connects {
        return [], Error(553, "IO exception");
      }
      var upload := env.upload;
      ghost var created := disk.nodes;
      assert created[file := File(upload[..0])] == created;
      var pos := 0;
      while pos < |upload|
        invariant 0 <= pos <= |upload|
        invariant disk.nodes == created[file := File(upload[..pos])]
        modifies disk
      {
        var nread := Min(BufSize, |upload| - pos);
        disk.Append(file, upload[pos..pos + nread]);
        assert upload[..pos] + upload[pos..pos + nread] == upload[..pos + nread];
        pos := pos + nread;
      }
      assert upload[..pos] == upload;
      return [Opening, Complete], Ok;
    }

    method CommandDele(args: seq<string>) returns (events: seq<Event>, outcome: Outcome)
      modifies disk
      ensures Effect(Model(), events, outcome) == Dele(baseDir, old(Model()), args)
    {
      var ok := CheckLogin();
      if !ok {
        return [], LoginRequired;
      }
      if |args| == 0 || |args[0]| == 0 {
        return [], Close;
      }
      var arg := args[0];
      var filePath, file := ResolvedFile(arg);
      if file !in disk.nodes {
        return [], Error(550, arg + ": file does not exist");
      }
      var deleted := disk.Remove(file);
      if !deleted {
        return [], Error(550, arg + ": could not delete file");
      }
      return [Reply(250, "DELE command successful.")], Ok;
    }

    method CommandRnfr(args: seq<string>) returns (events: seq<Event>, outcome: Outcome)
      modifies this
      ensures Effect(Model(), events, outcome) == Rnfr(baseDir, old(Model()), args)
    {
      var ok := CheckLogin();
      if !ok {
        return [], LoginRequired;
      }
      if |args| == 0 || |args[0]| == 0 {
        return [], Close;
      }
      var arg := args[0];
      var filePath, file := ResolvedFile(arg);
      renameFile := Some(file);
      if file !in disk.nodes {
        return [], Error(550, arg + ": file does not exist");
      }
      return [Reply(350, "Pending file")], Ok;
    }

    method CommandRnto(args: seq<string>) returns (events: seq<Event>, outcome: Outcome)
      modifies this, disk
      ensures Effect(Model(), events, outcome) == Rnto(baseDir, old(Model()), args)
    {
      var ok := CheckLogin();
      if !ok {
        return [], LoginRequired;
      }
      if |args| == 0 || |args[0]| == 0 {
        return [], Close;
      }
      var arg := args[0];
      var filePath, newFile := ResolvedFile(arg);
      if renameFile.None? {
        return [], Close;
      }
      var renamed := disk.RenameTo(renameFile.value, newFile);
      if !renamed {
        return [], Error(550, arg + ": file does not exist");
      }
      renameFile := None;
      return [Reply(250, "CWD rnto success")], Ok;
    }

    method CommandRmd(args: seq<string>) returns (events: seq<Event>, outcome: Outcome)
      modifies disk
      ensures Effect(Model(), events, outcome) == Rmd(baseDir, old(Model()), args)
    {
      var ok := CheckLogin();
      if !ok {
        return [], LoginRequired;
      }
      if |args| == 0 || |args[0]| == 0 {
        return [], Close;
      }
      var arg := args[0];
      var dirPath, dir := ResolvedFile(arg);
      if dir !in disk.nodes {
        return [], Error(550, arg + ": directory does not exist");
      }
      if !IsDir(disk.nodes, dir) {
        return [], Error(550, arg + ": not a directory");
      }
      var removed := disk.Remove(dir);
      if !removed {
        return [], Error(550, arg + ": could not remove directory");
      }
      return [Reply(250, "RMD command successful.")], Ok;
    }

    /** handle_quit, which no line reaches because of its name. */
    method HandleQuit() returns (events: seq<Event>, outcome: Outcome)
      modifies this
      ensures Effect(Model(), events, outcome) == Quit(old(Model()))
    {
      username := None;
      password := None;
      return [Reply(221, "Goodbye...")], Close;
    }

    /** The reflective call of `command_<verb>`. */
    method Invoke(env: Env, verb: string, args: seq<string>, line: string) returns (events: seq<Event>, outcome: Outcome)
      requires verb in Verbs
      modifies this, disk
      ensures Effect(Model(), events, outcome) == Run(baseDir, env, old(Model()), verb, args, line)
    {
      ghost var st := Model();
      if verb == "user" {
        RunUser(baseDir, env, st, args, line);
        events, outcome := CommandUser(args);
      } else if verb == "pass" {
        RunPass(baseDir, env, st, args, line);
        events, outcome := CommandPass(args);
      } else if verb == "syst" {
        RunSyst(baseDir, env, st, args, line);
        events, outcome := CommandSyst();
      } else if verb == "clnt" {
        RunClnt(baseDir, env, st, args, line);
        events, outcome := CommandClnt();
      } else if verb == "pwd" {
        RunPwd(baseDir, env, st, args, line);
        events, outcome := CommandPwd();
      } else if verb == "type" {
        RunType(baseDir, env, st, args, line);
        events, outcome := CommandType(args);
      } else if verb == "port" {
        RunPort(baseDir, env, st, args, line);
        events, outcome := CommandPort(args);
      } else if verb == "list" {
        RunList(baseDir, env, st, args, line);
        events, outcome := CommandList(env, args);
      } else if verb == "cwd" {
        RunCwd(baseDir, env, st, args, line);
        events, outcome := CommandCwd(args);
      } else if verb == "retr" {
        RunRetr(baseDir, env, st, args, line);
        events, outcome := CommandRetr(env, line);
      } else if verb == "mkd" {
        RunMkd(baseDir, env, st, args, line);
        events, outcome := CommandMkd(args);
      } else if verb == "stor" {
        RunStor(baseDir, env, st, args, line);
        events, outcome := CommandStor(env, line);
      } else if verb == "dele" {
        RunDele(baseDir, env, st, args, line);
        events, outcome := CommandDele(args);
      } else if verb == "rnfr" {
        RunRnfr(baseDir, env, st, args, line);
        events, outcome := CommandRnfr(args);
      } else if verb == "rnto" {
        RunRnto(baseDir, env, st, args, line);
        events, outcome := CommandRnto(args);
      } else {
        RunRmd(baseDir, env, st, args, line);
        events, outcome := CommandRmd(args);
      }
    }

    /**
     * channelRead0 for one line, with exceptionCaught: the events written
     * and whether the connection was closed.
     */
    method ChannelRead(env: Env, line: string) returns (events: seq<Event>, closed: bool)
      modifies this, disk
      ensures StepResult(Model(), events, closed) == Step(baseDir, env, old(Model()), line)
    {
      var tokens := Tokens(line, Whitespace);
      if |tokens| == 0 {
        return [], true;
      }
      var command := Lower(tokens[0]);
      if command !in Verbs {
        return [Unsupported(line)], false;
      }
      var sent, outcome := Invoke(env, command, tokens[1..], line);
      match outcome
      case Ok =>
        events, closed := sent, false;
      case Error(code, text) =>
        events, closed := sent + [Reply(code, text)], false;
      case Close =>
        events, closed := sent, true;
    }
  }
}
