/**
 * What the control channel guarantees, stated over the handler functions
 * and the dispatcher: dispatch and the login gate, the working directory,
 * the disk commands, the rename protocol, the transfers and the listing,
 * confinement of the resolvePath users, and the session invariant.
 */
module Properties {
  import opened Wrappers
  import opened Text
  import opened Paths
  import opened FileSystem
  import opened PortArgs
  import opened Listing
  import opened Transfer
  import opened Commands
  import opened Replies

  // ---------------------------------------------------------------- dispatch

  /** A line without any token has no verb: nextToken throws and the connection closes. */
  lemma EmptyLineCloses(baseDir: string, env: Env, st: State, line: string)
    requires VerbOf(line).None?
    ensures Step(baseDir, env, st, line) == StepResult(st, [], true)
  {
  }

  /**
   * A verb without a `command_` method is answered with exactly one 500
   * reply quoting the line, and the session is left as it was.
   */
  lemma UnknownVerbChangesNothing(baseDir: string, env: Env, st: State, line: string)
    requires VerbOf(line).Some? && VerbOf(line).value !in Verbs
    ensures Step(baseDir, env, st, line) == StepResult(st, [Unsupported(line)], false)
  {
  }

  /**
   * The bytes the control connection carries for a run of events: the
   * line `send` writes for each reply, in order; data and listings go to
   * the data connection instead.
   */
  function ControlBytes(events: seq<Event>): seq<byte>
    decreases |events|
  {
    if |events| == 0 then []
    else (match events[0] case Reply(code, text) => ReplyLine(code, text) case _ => []) + ControlBytes(events[1..])
  }

  lemma {:induction false} ControlBytesConcat(a: seq<Event>, b: seq<Event>)
    ensures ControlBytes(a + b) == ControlBytes(a) + ControlBytes(b)
    decreases |a|
  {
    if |a| == 0 {
      assert a + b == b;
    } else {
      assert (a + b)[0] == a[0] && (a + b)[1..] == a[1..] + b;
      ControlBytesConcat(a[1..], b);
    }
  }

  /** A CommandException is written on the control connection as the last line of the step. */
  lemma ErrorIsLastLine(e: Effect)
    requires e.outcome.Error?
    ensures ControlBytes(Finish(e).events) == ControlBytes(e.events) + ReplyLine(e.outcome.code, e.outcome.text)
  {
    var r := Reply(e.outcome.code, e.outcome.text);
    ControlBytesConcat(e.events, [r]);
    assert [r][1..] == [];
  }

  /**
   * On the wire, an unknown verb is answered by one reply line that a
   * client reads back as code 500 and the quoted line, in ASCII.
   */
  lemma UnknownVerbWire(baseDir: string, env: Env, st: State, line: string)
    requires VerbOf(line).Some? && VerbOf(line).value !in Verbs
    ensures ParseReplyLine(ControlBytes(Step(baseDir, env, st, line).events))
      == Some((500, AsciiBytes("'" + line + "': command not support.")))
  {
    var text := "'" + line + "': command not support.";
    var events := Step(baseDir, env, st, line).events;
    UnknownVerbChangesNothing(baseDir, env, st, line);
    assert events == [Reply(500, text)];
    assert events[1..] == [];
    assert ControlBytes(events) == ReplyLine(500, text) + ControlBytes([]);
    assert ReplyLine(500, text) + [] == ReplyLine(500, text);
    ReplyLineRoundTrip(500, text);
  }

  /** The line "QUIT" dispatches on the verb "quit", with no arguments. */
  lemma QuitLineTokens()
    ensures VerbOf("QUIT") == Some("quit") && ArgsOf("QUIT") == []
  {
    assert NoneIn("QUIT", Whitespace);
    ScanPlain("QUIT", Whitespace, []);
    assert [] + "QUIT" == "QUIT";
    assert Lower("QUIT") == "quit";
  }

  /**
   * QUIT never reaches handle_quit: its method is not named `command_quit`,
   * so the client is told the command is not supported and stays logged in.
   */
  lemma QuitIsNotSupported(baseDir: string, env: Env, st: State, line: string)
    requires VerbOf(line) == Some("quit")
    ensures Step(baseDir, env, st, line) == StepResult(st, [Unsupported(line)], false)
  {
    assert "quit" !in Verbs;
  }

  /** handle_quit itself would forget the login, say goodbye and close. */
  lemma QuitHandlerLogsOut(st: State)
    ensures var e := Quit(st);
      !LoggedIn(e.st) && e.events == [Reply(221, "Goodbye...")] && e.outcome.Close?
      && e.st.(username := st.username, password := st.password) == st
  {
  }

  /** A known verb runs its handler on the tokens after the verb. */
  lemma StepRuns(baseDir: string, env: Env, st: State, line: string)
    requires VerbOf(line).Some? && VerbOf(line).value in Verbs
    ensures Step(baseDir, env, st, line) == Finish(Run(baseDir, env, st, VerbOf(line).value, ArgsOf(line), line))
  {
  }

  /** The tokens after the verb are never empty strings. */
  lemma ArgsOfWellFormed(line: string)
    ensures forall i :: 0 <= i < |ArgsOf(line)| ==> |ArgsOf(line)[i]| > 0
  {
    TokensWellFormed(line, Whitespace);
  }

  // ---------------------------------------------------------------- login

  /** The verbs whose handler starts with checkLogin. */
  const Gated: set<string> := Verbs - {"user", "pass"}

  /**
   * Every gated command, before both USER and PASS have been given,
   * answers 530 and changes nothing.
   */
  lemma GateBlocks(baseDir: string, env: Env, st: State, line: string)
    requires !LoggedIn(st)
    requires VerbOf(line).Some? && VerbOf(line).value in Gated
    ensures Step(baseDir, env, st, line) == StepResult(st, [Reply(530, "Please login with username and password.")], false)
  {
    StepRuns(baseDir, env, st, line);
  }

  /** PASS before USER: 503, nothing changes. */
  lemma PassNeedsUser(baseDir: string, env: Env, st: State, line: string)
    requires VerbOf(line) == Some("pass") && st.username.None?
    ensures Step(baseDir, env, st, line) == StepResult(st, [Reply(503, "Login with username first.")], false)
  {
  }

  /**
   * PASS after USER stores the password (empty when none is given) and
   * succeeds exactly for the account morf/123; either way both fields are
   * now set, so the login gate is open even after "530 Login incorrect.".
   */
  lemma PassOpensGate(st: State, args: seq<string>)
    requires st.username.Some?
    ensures var e := Pass(st, args);
      var password := if |args| > 0 then args[0] else "";
      && e.st == st.(password := Some(password))
      && LoggedIn(e.st)
      && (e.outcome.Ok? <==> st.username.value == "morf" && password == "123")
      && (e.outcome.Ok? ==> e.events == [Reply(230, "Authorization has been successfully.")])
      && (!e.outcome.Ok? ==> e.events == [] && e.outcome == Error(530, "Login incorrect."))
  {
  }

  /**
   * The consequence: after a rejected PASS, a gated command such as SYST
   * is served.
   */
  lemma RejectedPassStillServes(baseDir: string, env: Env, st: State, passLine: string, systLine: string)
    requires st.username.Some?
    requires VerbOf(passLine) == Some("pass") && VerbOf(systLine) == Some("syst")
    requires var args := ArgsOf(passLine);
      !(st.username.value == "morf" && |args| > 0 && args[0] == "123")
    ensures var r := Step(baseDir, env, st, passLine);
      && r.events == [Reply(530, "Login incorrect.")] && !r.closed
      && Step(baseDir, env, r.st, systLine) == StepResult(r.st, [Reply(215, "UNIX")], false)
  {
    PassOpensGate(st, ArgsOf(passLine));
  }

  /** USER needs no login; it replaces the username and asks for the password. */
  lemma UserSetsName(st: State, args: seq<string>)
    requires |args| > 0
    ensures User(st, args) == Effect(st.(username := Some(args[0])), [Reply(331, "Password required for " + args[0] + ".")], Ok)
  {
  }

  /** USER morf followed by PASS 123 logs in, whatever the session held before. */
  lemma LoginSequence(baseDir: string, env: Env, st: State, userLine: string, passLine: string)
    requires VerbOf(userLine) == Some("user") && |ArgsOf(userLine)| > 0 && ArgsOf(userLine)[0] == "morf"
    requires VerbOf(passLine) == Some("pass") && |ArgsOf(passLine)| > 0 && ArgsOf(passLine)[0] == "123"
    ensures var r1 := Step(baseDir, env, st, userLine);
      var r2 := Step(baseDir, env, r1.st, passLine);
      && r1.events == [Reply(331, "Password required for morf.")]
      && r2.events == [Reply(230, "Authorization has been successfully.")]
      && LoggedIn(r2.st) && !r1.closed && !r2.closed
  {
    StepRuns(baseDir, env, st, userLine);
    var r1 := Step(baseDir, env, st, userLine);
    assert "Password required for " + "morf" + "." == "Password required for morf.";
    assert r1.st.username == Some("morf");
    StepRuns(baseDir, env, r1.st, passLine);
  }

  // ---------------------------------------------------------------- failures

  /** The handlers that change nothing unless they succeed. */
  const Atomic: set<string> :=
    {"user", "syst", "clnt", "pwd", "type", "list", "cwd", "retr", "mkd", "dele", "rnto", "rmd"}

  /**
   * For every handler except PASS, PORT, RNFR and STOR, a CommandException
   * and a closed connection leave the whole session, disk included, as it
   * was.
   */
  lemma FailureChangesNothing(baseDir: string, env: Env, st: State, verb: string, args: seq<string>, line: string)
    requires verb in Atomic
    ensures var e := Run(baseDir, env, st, verb, args, line); !e.outcome.Ok? ==> e.st == st
  {
    if verb in {"user", "syst", "clnt", "pwd", "type", "list", "retr"} {
      SessionFailureChangesNothing(baseDir, env, st, verb, args, line);
    } else {
      DiskFailureChangesNothing(baseDir, env, st, verb, args, line);
    }
  }

  lemma SessionFailureChangesNothing(baseDir: string, env: Env, st: State, verb: string, args: seq<string>, line: string)
    requires verb in {"user", "syst", "clnt", "pwd", "type", "list", "retr"}
    ensures var e := Run(baseDir, env, st, verb, args, line); !e.outcome.Ok? ==> e.st == st
  {
    if verb == "user" {
      RunUser(baseDir, env, st, args, line);
    } else if verb == "syst" {
      RunSyst(baseDir, env, st, args, line);
    } else if verb == "clnt" {
      RunClnt(baseDir, env, st, args, line);
    } else if verb == "pwd" {
      RunPwd(baseDir, env, st, args, line);
    } else if verb == "type" {
      RunType(baseDir, env, st, args, line);
    } else if verb == "list" {
      RunList(baseDir, env, st, args, line);
    } else {
      RunRetr(baseDir, env, st, args, line);
    }
  }

  lemma DiskFailureChangesNothing(baseDir: string, env: Env, st: State, verb: string, args: seq<string>, line: string)
    requires verb in {"cwd", "mkd", "dele", "rnto", "rmd"}
    ensures var e := Run(baseDir, env, st, verb, args, line); !e.outcome.Ok? ==> e.st == st
  {
    if verb == "cwd" {
      RunCwd(baseDir, env, st, args, line);
    } else if verb == "mkd" {
      RunMkd(baseDir, env, st, args, line);
    } else if verb == "dele" {
      RunDele(baseDir, env, st, args, line);
    } else if verb == "rnto" {
      RunRnto(baseDir, env, st, args, line);
    } else {
      RunRmd(baseDir, env, st, args, line);
    }
  }

  /** PORT replaces the address with the parse, so a rejected argument clears a previous address. */
  lemma PortReplacesAddress(st: State, args: seq<string>)
    requires LoggedIn(st) && |args| > 0
    ensures var e := Port(st, args);
      && e.st == st.(address := PortAddress(args[0]))
      && (e.outcome.Ok? <==> PortAddress(args[0]).Some?)
      && (!e.outcome.Ok? ==> e.st.address.None? && e.outcome == Error(501, "Syntax error in parameters or arguments"))
  {
  }

  /**
   * TYPE accepts exactly an argument of one character inside the Basic
   * Multilingual Plane (a Java string of length one) and stores it
   * upper-cased.
   */
  lemma TypeSetsCode(st: State, args: seq<string>)
    requires LoggedIn(st) && |args| > 0
    ensures var e := Type(st, args);
      && (e.outcome.Ok? <==> |args[0]| == 1 && args[0][0] as int <= 0xFFFF)
      && (e.outcome.Ok? ==> e.st == st.(ftpType := Some(UpperChar(args[0][0]))))
      && (!e.outcome.Ok? ==> e.st == st && e.outcome == Error(500, "TYPE: invalid argument '" + Upper(args[0]) + "'"))
  {
    UpperUtf16Length(args[0]);
  }

  // ---------------------------------------------------------------- working directory

  /**
   * CWD moves only to an existing directory, and then to the resolved form
   * of its argument (an empty argument meaning "/"), which PWD reports
   * back; otherwise it answers 550 and stays.
   */
  lemma CwdMovesToDirectories(baseDir: string, st: State, args: seq<string>)
    requires LoggedIn(st) && |args| > 0
    ensures var newDir := if |args[0]| == 0 then "/" else args[0];
      var e := Cwd(baseDir, st, args);
      && (e.outcome.Ok? <==> IsDir(st.fs, Target(baseDir, st, newDir)))
      && (e.outcome.Ok? ==> e.st == st.(currentDir := Resolve(st.currentDir, newDir))
                            && IsResolved(e.st.currentDir)
                            && Pwd(e.st).events == [Reply(257, Resolve(st.currentDir, newDir))])
      && (!e.outcome.Ok? ==> e.st == st && e.outcome.Error? && e.outcome.code == 550)
  {
    var newDir := if |args[0]| == 0 then "/" else args[0];
    ResolveShape(st.currentDir, newDir);
  }

  /** CWD to the directory PWD reports is a no-op that succeeds. */
  lemma CwdToPwdStays(baseDir: string, st: State)
    requires Valid(baseDir, st) && LoggedIn(st)
    requires IsDir(st.fs, OsPath(CreateNativePath(baseDir, st.currentDir, st.currentDir)))
    ensures |st.currentDir| > 0
    ensures Cwd(baseDir, st, [st.currentDir]) == Effect(st, [Reply(250, "CWD command successful.")], Ok)
  {
    ResolveOfResolved(st.currentDir, st.currentDir);
  }

  // ---------------------------------------------------------------- disk commands

  /**
   * MKD: 550 when the resolved target exists, 500 when mkdir fails (its
   * parent is not a directory); on success exactly one new directory and
   * the reply quotes the resolved path.
   */
  lemma MkdCreatesDirectory(baseDir: string, st: State, args: seq<string>)
    requires LoggedIn(st) && |args| > 0 && |args[0]| > 0
    ensures var p, e := Target(baseDir, st, args[0]), Mkd(baseDir, st, args);
      && (e.outcome.Ok? <==> p !in st.fs && |p| > 0 && IsDir(st.fs, Parent(p)))
      && (p in st.fs ==> e == Fail(st, 550, args[0] + ": file exists"))
      && (p !in st.fs && !(|p| > 0 && IsDir(st.fs, Parent(p))) ==>
            e == Fail(st, 500, args[0] + ": directory could not be created"))
      && (e.outcome.Ok? ==>
            && e.st == st.(fs := st.fs[p := Dir])
            && e.events == [Reply(257, "\"" + Resolve(st.currentDir, args[0]) + "\" directory created")])
      && (!e.outcome.Ok? ==> e.st == st)
  {
  }

  /** DELE removes an existing file or empty directory and nothing else. */
  lemma DeleRemovesEntry(baseDir: string, st: State, args: seq<string>)
    requires LoggedIn(st) && |args| > 0 && |args[0]| > 0
    ensures var p, e := Target(baseDir, st, args[0]), Dele(baseDir, st, args);
      && (e.outcome.Ok? <==> p in st.fs && |p| > 0 && !(IsDir(st.fs, p) && HasChildren(st.fs, p)))
      && (p !in st.fs ==> e == Fail(st, 550, args[0] + ": file does not exist"))
      && (e.outcome.Ok? ==> e.st == st.(fs := st.fs - {p}) && e.events == [Reply(250, "DELE command successful.")])
      && (!e.outcome.Ok? ==> e.st == st && e.outcome.Error? && e.outcome.code == 550)
  {
  }

  /** RMD removes an existing empty directory, and refuses files and non-empty directories with 550. */
  lemma RmdRemovesEmptyDirectory(baseDir: string, st: State, args: seq<string>)
    requires LoggedIn(st) && |args| > 0 && |args[0]| > 0
    ensures var p, e := Target(baseDir, st, args[0]), Rmd(baseDir, st, args);
      && (e.outcome.Ok? <==> IsDir(st.fs, p) && |p| > 0 && !HasChildren(st.fs, p))
      && (IsFile(st.fs, p) ==> e == Fail(st, 550, args[0] + ": not a directory"))
      && (e.outcome.Ok? ==> e.st == st.(fs := st.fs - {p}) && e.events == [Reply(250, "RMD command successful.")])
      && (!e.outcome.Ok? ==> e.st == st && e.outcome.Error? && e.outcome.code == 550)
  {
  }

  // ---------------------------------------------------------------- rename

  /** RNFR records its target before checking it, so even a 550 RNFR replaces the pending file. */
  lemma RnfrAlwaysRecords(baseDir: string, st: State, args: seq<string>)
    requires LoggedIn(st) && |args| > 0 && |args[0]| > 0
    ensures var p, e := Target(baseDir, st, args[0]), Rnfr(baseDir, st, args);
      && e.st == st.(renameFile := Some(p))
      && (e.outcome.Ok? <==> p in st.fs)
      && (e.outcome.Ok? ==> e.events == [Reply(350, "Pending file")])
      && (!e.outcome.Ok? ==> e.outcome == Error(550, args[0] + ": file does not exist"))
  {
  }

  /** RNTO without a pending RNFR dereferences null: the connection closes and nothing changes. */
  lemma RntoWithoutRnfrCloses(baseDir: string, env: Env, st: State, line: string)
    requires LoggedIn(st) && st.renameFile.None?
    requires VerbOf(line) == Some("rnto")
    ensures Step(baseDir, env, st, line) == StepResult(st, [], true)
  {
  }

  /**
   * RNTO renames the pending entry onto the resolved target: on success
   * the entry (with its subtree) is at the target, the source is gone,
   * nothing outside the two subtrees changes, and the pending file is
   * cleared; a failed rename answers 550 and keeps everything, the pending
   * file included.
   */
  lemma RntoRenames(baseDir: string, st: State, args: seq<string>)
    requires LoggedIn(st) && |args| > 0 && |args[0]| > 0 && st.renameFile.Some?
    requires Tree(st.fs)
    ensures var src, dst, e := st.renameFile.value, Target(baseDir, st, args[0]), Rnto(baseDir, st, args);
      && (e.outcome.Ok? <==> CanRename(st.fs, src, dst))
      && (e.outcome.Ok? ==>
            && e.st.renameFile.None?
            && e.events == [Reply(250, "CWD rnto success")]
            && dst in e.st.fs && e.st.fs[dst] == st.fs[src]
            && (src != dst ==> src !in e.st.fs)
            && (forall k :: !Under(src, k) && !Under(dst, k) ==>
                  (k in e.st.fs <==> k in st.fs) && (k in st.fs ==> e.st.fs[k] == st.fs[k])))
      && (!e.outcome.Ok? ==> e.st == st && e.outcome == Error(550, args[0] + ": file does not exist"))
  {
    var src, dst := st.renameFile.value, Target(baseDir, st, args[0]);
    if CanRename(st.fs, src, dst) && src != dst {
      RenameMoves(st.fs, src, dst);
    }
  }

  lemma RntoSuccessClears(baseDir: string, st: State, args: seq<string>)
    ensures var e := Rnto(baseDir, st, args);
      Finish(e).events == [Reply(250, "CWD rnto success")] ==> LoggedIn(e.st) && e.st.renameFile.None?
  {
    var e := Rnto(baseDir, st, args);
    if e.outcome.Error? {
      assert e.events == [];
      assert Finish(e).events[0] == Reply(e.outcome.code, e.outcome.text);
      assert e.outcome.code != 250;
    }
  }

  /** A successful RNTO consumes the pending file: a second RNTO closes the connection. */
  lemma SecondRntoCloses(baseDir: string, env: Env, st: State, line1: string, line2: string)
    requires VerbOf(line1) == Some("rnto") && VerbOf(line2) == Some("rnto")
    requires Step(baseDir, env, st, line1).events == [Reply(250, "CWD rnto success")]
    ensures var r1 := Step(baseDir, env, st, line1);
      Step(baseDir, env, r1.st, line2) == StepResult(r1.st, [], true)
  {
    StepRuns(baseDir, env, st, line1);
    RntoSuccessClears(baseDir, st, ArgsOf(line1));
    var r1 := Step(baseDir, env, st, line1);
    RntoWithoutRnfrCloses(baseDir, env, r1.st, line2);
  }

  // ---------------------------------------------------------------- transfers

  /** The bytes a client receives on its data connections, in order. */
  function SentData(events: seq<Event>): seq<byte>
    decreases |events|
  {
    if |events| == 0 then [] else (if events[0].Data? then events[0].bytes else []) + SentData(events[1..])
  }

  lemma {:induction false} SentDataConcat(a: seq<Event>, b: seq<Event>)
    ensures SentData(a + b) == SentData(a) + SentData(b)
    decreases |a|
  {
    if |a| > 0 {
      assert (a + b)[0] == a[0] && (a + b)[1..] == a[1..] + b;
      SentDataConcat(a[1..], b);
    } else {
      assert a + b == b;
    }
  }

  lemma {:induction false} SentDataOfChunks(chunks: seq<seq<byte>>)
    ensures SentData(DataEvents(chunks)) == Flatten(chunks)
    decreases |chunks|
  {
    if |chunks| > 0 {
      assert DataEvents(chunks)[1..] == DataEvents(chunks[1..]);
      SentDataOfChunks(chunks[1..]);
    }
  }

  /**
   * RETR: a target the OS cannot walk or that is not a plain file is
   * refused with 550 before anything is sent; otherwise, once connected,
   * the client receives 150, then the file's bytes exactly, in buffer
   * loads of 1 to 65536 bytes, then 226. A connection that cannot be
   * opened gives 553, a missing PORT address closes. RETR changes nothing.
   */
  lemma RetrSendsFile(baseDir: string, env: Env, st: State, line: string)
    requires LoggedIn(st) && TransferPath(baseDir, st, line).Some?
    ensures var native, e := TransferPath(baseDir, st, line).value, Retr(baseDir, env, st, line);
      var p := OsPath(native);
      && e.st == st
      && (IsFileAt(st.fs, native) <==> Lookup(st.fs, native) == Some(p) && IsFile(st.fs, p))
      && (!IsFileAt(st.fs, native) ==> e == Fail(st, 550, "Not a plain file."))
      && (IsFileAt(st.fs, native) && st.address.None? ==> e == Closed(st))
      && (IsFileAt(st.fs, native) && st.address.Some? && !env.connects ==> e == Fail(st, 553, "IO exception"))
      && (e.outcome.Ok? <==> IsFileAt(st.fs, native) && st.address.Some? && env.connects)
      && (e.outcome.Ok? ==>
            && |e.events| >= 2 && e.events[0] == Opening && e.events[|e.events| - 1] == Complete
            && SentData(e.events) == st.fs[p].content
            && forall i :: 0 < i < |e.events| - 1 ==> e.events[i].Data? && 0 < |e.events[i].bytes| <= BufSize)
  {
    var native := TransferPath(baseDir, st, line).value;
    if Lookup(st.fs, native).Some? {
      LookupLexical(st.fs, native);
    }
    var p := OsPath(native);
    if IsFileAt(st.fs, native) && st.address.Some? && env.connects {
      var chunks := Chunks(st.fs[p].content);
      var events := [Opening] + DataEvents(chunks) + [Complete];
      SentDataConcat([Opening], DataEvents(chunks));
      SentDataConcat([Opening] + DataEvents(chunks), [Complete]);
      SentDataOfChunks(chunks);
      ChunksFlatten(st.fs[p].content);
      ChunksBounded(st.fs[p].content);
      assert forall i :: 0 < i < |events| - 1 ==> events[i] == Data(chunks[i - 1]);
    }
  }

  /**
   * STOR: a target the OS cannot walk gives 550 "No such file.", an
   * existing one 550 "File exists in that location."; otherwise the file
   * is created and, once connected, holds exactly the uploaded bytes,
   * between 150 and 226. When there is no PORT address or the data
   * connection fails, the newly created file is left behind empty.
   */
  lemma StorStoresUpload(baseDir: string, env: Env, st: State, line: string)
    requires LoggedIn(st) && TransferPath(baseDir, st, line).Some?
    ensures var native, e := TransferPath(baseDir, st, line).value, Stor(baseDir, env, st, line);
      var p, walks := OsPath(native), Lookup(st.fs, native).Some?;
      var creates := walks && p !in st.fs && |p| > 0 && IsDir(st.fs, Parent(p));
      && (walks ==> Lookup(st.fs, native) == Some(p))
      && (!walks ==> e == Fail(st, 550, "No such file."))
      && (walks && p in st.fs ==> e == Fail(st, 550, "File exists in that location."))
      && (walks && p !in st.fs && !(|p| > 0 && IsDir(st.fs, Parent(p))) ==> e == Fail(st, 550, "No such file."))
      && (e.outcome.Ok? <==> creates && st.address.Some? && env.connects)
      && (e.outcome.Ok? ==> e.events == [Opening, Complete] && e.st == st.(fs := st.fs[p := File(env.upload)]))
      && (creates && st.address.None? ==> e == Closed(st.(fs := st.fs[p := File([])])))
      && (creates && st.address.Some? && !env.connects ==>
            e == Fail(st.(fs := st.fs[p := File([])]), 553, "IO exception"))
  {
    var native := TransferPath(baseDir, st, line).value;
    if Lookup(st.fs, native).Some? {
      LookupLexical(st.fs, native);
    }
    var p := OsPath(native);
    assert st.fs[p := File([])][p := File(env.upload)] == st.fs[p := File(env.upload)];
  }

  /** What STOR stored under a path, a later RETR of the same path sends back. */
  lemma StorThenRetr(baseDir: string, env: Env, env2: Env, st: State, storLine: string, retrLine: string)
    requires LoggedIn(st) && |storLine| > 5 && |retrLine| > 5 && storLine[5..] == retrLine[5..]
    requires Stor(baseDir, env, st, storLine).outcome.Ok?
    requires env2.connects
    ensures var e := Retr(baseDir, env2, Stor(baseDir, env, st, storLine).st, retrLine);
      e.outcome.Ok? && SentData(e.events) == env.upload
  {
    StorStoresUpload(baseDir, env, st, storLine);
    var st2 := Stor(baseDir, env, st, storLine).st;
    var native := TransferPath(baseDir, st, storLine).value;
    var p := OsPath(native);
    assert TransferPath(baseDir, st2, retrLine) == Some(native);
    assert forall q :: IsDir(st.fs, q) <==> IsDir(st2.fs, q);
    WalkFromSameDirs(st.fs, st2.fs, [], Tokens(native, Slash));
    RetrSendsFile(baseDir, env2, st2, retrLine);
  }

  /**
   * A ".." after a missing directory is refused by the OS although the
   * lexical reading of the path names an existing entry: RETR /x/../a
   * gives 550 "Not a plain file." and STOR /x/../a 550 "No such file.".
   */
  lemma DotDotNeedsDirectory(baseDir: string, env: Env, st: State, x: string, a: string)
    requires Valid(baseDir, st) && LoggedIn(st) && CleanSegment(x) && CleanSegment(a)
    requires !IsDir(st.fs, Root(baseDir) + [x])
    ensures OsPath(baseDir + "/" + x + "/../" + a) == Root(baseDir) + [a]
    ensures Retr(baseDir, env, st, "RETR /" + x + "/../" + a) == Fail(st, 550, "Not a plain file.")
    ensures Stor(baseDir, env, st, "STOR /" + x + "/../" + a) == Fail(st, 550, "No such file.")
  {
    UpThroughMissing(st.fs, baseDir, x, a);
    assert "RETR /" == "RETR" + " /" && "STOR /" == "STOR" + " /";
    DotDotLine(baseDir, st, "RETR", x, a);
    DotDotLine(baseDir, st, "STOR", x, a);
  }

  /** RETR /f/. of a plain file f gives 550 although the lexical reading of the path is f. */
  lemma DotNeedsDirectory(baseDir: string, env: Env, st: State, f: string)
    requires Valid(baseDir, st) && LoggedIn(st) && CleanSegment(f)
    requires IsFile(st.fs, Root(baseDir) + [f])
    ensures OsPath(baseDir + "/" + f + "/.") == Root(baseDir) + [f]
    ensures Retr(baseDir, env, st, "RETR /" + f + "/.") == Fail(st, 550, "Not a plain file.")
  {
    DotAfterNonDirectory(st.fs, baseDir, f);
    assert "RETR /" == "RETR" + " /";
    DotLine(baseDir, st, "RETR", f);
  }

  lemma DotLine(baseDir: string, st: State, verb: string, f: string)
    requires |verb| == 4
    ensures TransferPath(baseDir, st, verb + " /" + f + "/.") == Some(baseDir + "/" + f + "/.")
  {
    var rest := "/" + f + "/.";
    assert verb + " /" + f + "/." == verb + " " + rest;
    assert (verb + " " + rest)[5..] == rest;
    assert baseDir + rest == baseDir + "/" + f + "/.";
  }

  lemma DotDotLine(baseDir: string, st: State, verb: string, x: string, a: string)
    requires |verb| == 4
    ensures TransferPath(baseDir, st, verb + " /" + x + "/../" + a) == Some(baseDir + "/" + x + "/../" + a)
  {
    var rest := "/" + x + "/../" + a;
    assert verb + " /" + x + "/../" + a == verb + " " + rest;
    assert (verb + " " + rest)[5..] == rest;
    assert baseDir + rest == baseDir + "/" + x + "/../" + a;
  }

  // ---------------------------------------------------------------- listing

  /** `names` are exactly the entries directly inside `dir`, each once: what File.list returns. */
  predicate ListsChildren(fs: Fs, dir: Path, names: seq<string>) {
    && (forall i :: 0 <= i < |names| ==> CleanSegment(names[i]) && dir + [names[i]] in fs)
    && (forall i, j :: 0 <= i < j < |names| ==> names[i] != names[j])
    && (forall k :: k in fs && |k| == |dir| + 1 && k[..|dir|] == dir ==> k[|dir|] in names)
  }

  /**
   * LIST: a missing PORT address closes, a refused data connection gives
   * 425, a missing TYPE closes; otherwise 150, the listing text, 226.
   * A path that is not a directory lists as "total 0". LIST changes nothing.
   */
  lemma ListReplies(baseDir: string, env: Env, st: State, args: seq<string>)
    requires LoggedIn(st)
    requires |if |args| > 0 then args[0] else st.currentDir| > 0
    ensures var path := if |args| > 0 then args[0] else st.currentDir;
      var native := CreateNativePath(baseDir, st.currentDir, path);
      var e := List(baseDir, env, st, args);
      && e.st == st
      && (st.address.None? ==> e == Closed(st))
      && (st.address.Some? && !env.connects ==> e == Fail(st, 425, "Can't open data connection."))
      && (st.address.Some? && env.connects && st.ftpType.None? ==> e == Closed(st))
      && (e.outcome.Ok? <==> st.address.Some? && env.connects && st.ftpType.Some?)
      && (e.outcome.Ok? ==> |e.events| == 3 && e.events[0] == Opening && e.events[2] == Complete && e.events[1].ListText?)
      && (e.outcome.Ok? && !IsDirAt(st.fs, native) ==>
            e.events[1] == ListText(Encode(st.ftpType.value, "total 0\n\r\n")))
  {
    var path := if |args| > 0 then args[0] else st.currentDir;
    var native := CreateNativePath(baseDir, st.currentDir, path);
    assert Lines([]) == "";
    assert NatToString(0) == "0";
    assert ListingText([]) == "total 0\n\r\n";
  }

  /**
   * When File.list names exactly the directory's children, LIST sends one
   * entry per child, named after it, marked 'd' exactly for directories
   * and giving a file's size; when no name or date holds a newline the
   * text has one line per entry plus the total line and the final CR LF.
   */
  lemma ListDescribesChildren(baseDir: string, env: Env, st: State, args: seq<string>)
    requires LoggedIn(st) && st.address.Some? && env.connects && st.ftpType.Some?
    requires |if |args| > 0 then args[0] else st.currentDir| > 0
    requires var native := CreateNativePath(baseDir, st.currentDir, if |args| > 0 then args[0] else st.currentDir);
      IsDirAt(st.fs, native) && ListsChildren(st.fs, OsPath(native), env.names)
    ensures var native := CreateNativePath(baseDir, st.currentDir, if |args| > 0 then args[0] else st.currentDir);
      var dir := OsPath(native);
      var entries := Entries(st.fs, env, native, env.names);
      var text := Encode(st.ftpType.value, ListingText(entries));
      && List(baseDir, env, st, args).events == [Opening, ListText(text), Complete]
      && (forall i :: 0 <= i < |entries| ==>
            && entries[i].name == env.names[i]
            && dir + [env.names[i]] in st.fs
            && (entries[i].isDir <==> IsDir(st.fs, dir + [env.names[i]]))
            && (IsFile(st.fs, dir + [env.names[i]]) ==> entries[i].size == |st.fs[dir + [env.names[i]]].content|))
      && ((forall i :: 0 <= i < |entries| ==> OneLine(entries[i])) ==> Count(text, '\n') == |entries| + 2)
  {
    var native := CreateNativePath(baseDir, st.currentDir, if |args| > 0 then args[0] else st.currentDir);
    var entries := Entries(st.fs, env, native, env.names);
    LookupLexical(st.fs, native);
    ListOfDirectory(baseDir, env, st, args);
    EntriesOfChildren(st.fs, env, native, env.names);
    EncodedLineCount(st.ftpType.value, entries);
  }

  lemma ListOfDirectory(baseDir: string, env: Env, st: State, args: seq<string>)
    requires LoggedIn(st) && st.address.Some? && env.connects && st.ftpType.Some?
    requires |if |args| > 0 then args[0] else st.currentDir| > 0
    requires IsDirAt(st.fs, CreateNativePath(baseDir, st.currentDir, if |args| > 0 then args[0] else st.currentDir))
    ensures var native := CreateNativePath(baseDir, st.currentDir, if |args| > 0 then args[0] else st.currentDir);
      List(baseDir, env, st, args).events
      == [Opening, ListText(Encode(st.ftpType.value, ListingText(Entries(st.fs, env, native, env.names)))), Complete]
  {
  }

  lemma EntriesOfChildren(fs: Fs, env: Env, native: string, names: seq<string>)
    requires forall i :: 0 <= i < |names| ==> CleanSegment(names[i])
    ensures var dir, entries := OsPath(native), Entries(fs, env, native, names);
      forall i :: 0 <= i < |entries| ==>
        && entries[i].name == names[i]
        && (entries[i].isDir <==> IsDir(fs, dir + [names[i]]))
        && (IsFile(fs, dir + [names[i]]) ==> entries[i].size == |fs[dir + [names[i]]].content|)
  {
    forall i | 0 <= i < |names|
      ensures OsPath(native + "/" + names[i]) == OsPath(native) + [names[i]]
    {
      OsPathChild(native, names[i]);
    }
  }

  lemma EncodedLineCount(ftpType: char, entries: seq<Entry>)
    ensures (forall i :: 0 <= i < |entries| ==> OneLine(entries[i])) ==>
      Count(Encode(ftpType, ListingText(entries)), '\n') == |entries| + 2
  {
    if forall i :: 0 <= i < |entries| ==> OneLine(entries[i]) {
      ListingLineCount(entries);
      CountToAscii(ListingText(entries), '\n');
    }
  }

  // ---------------------------------------------------------------- confinement

  /** The handlers that pass their argument through resolvePath. */
  const Resolving: set<string> := {"cwd", "mkd", "rmd", "dele", "rnfr", "rnto"}

  lemma TargetUnderRoot(baseDir: string, st: State, arg: string)
    requires ValidBase(baseDir) && |arg| > 0
    ensures Under(Root(baseDir), Target(baseDir, st, arg))
  {
    ResolvedStaysUnderRoot(baseDir, st.currentDir, arg);
  }

  /** The state a handler leaves when all it changes is the disk. */
  ghost predicate DiskChangeInRoot(baseDir: string, st: State, st': State) {
    && SameOutside(st.fs, st'.fs, Root(baseDir))
    && st' == st.(fs := st'.fs)
    && Valid(baseDir, st')
  }

  lemma CwdKeepsValid(baseDir: string, st: State, args: seq<string>)
    requires Valid(baseDir, st)
    ensures var st' := Cwd(baseDir, st, args).st;
      st' == st.(currentDir := st'.currentDir) && Valid(baseDir, st')
  {
    if LoggedIn(st) && |args| > 0 {
      var newDir := if |args[0]| == 0 then "/" else args[0];
      ResolveShape(st.currentDir, newDir);
    }
  }

  lemma MkdirInRoot(baseDir: string, st: State, p: Path)
    requires Valid(baseDir, st) && Under(Root(baseDir), p) && Mkdir(st.fs, p).Some?
    ensures DiskChangeInRoot(baseDir, st, st.(fs := Mkdir(st.fs, p).value))
  {
    MkdirPreservesTree(st.fs, p);
  }

  lemma DeleteInRoot(baseDir: string, st: State, p: Path)
    requires Valid(baseDir, st) && Under(Root(baseDir), p) && Delete(st.fs, p).Some?
    ensures DiskChangeInRoot(baseDir, st, st.(fs := Delete(st.fs, p).value))
  {
    DeletePreservesTree(st.fs, p);
  }

  lemma MkdInRoot(baseDir: string, st: State, args: seq<string>)
    requires Valid(baseDir, st)
    ensures DiskChangeInRoot(baseDir, st, Mkd(baseDir, st, args).st)
  {
    if LoggedIn(st) && |args| > 0 && |args[0]| > 0 {
      var p := Target(baseDir, st, args[0]);
      var st' := Mkd(baseDir, st, args).st;
      if p !in st.fs && Mkdir(st.fs, p).Some? {
        TargetUnderRoot(baseDir, st, args[0]);
        MkdirInRoot(baseDir, st, p);
        assert st' == st.(fs := Mkdir(st.fs, p).value);
      } else {
        assert st' == st;
      }
    }
  }

  lemma DeleInRoot(baseDir: string, st: State, args: seq<string>)
    requires Valid(baseDir, st)
    ensures DiskChangeInRoot(baseDir, st, Dele(baseDir, st, args).st)
  {
    if LoggedIn(st) && |args| > 0 && |args[0]| > 0 {
      var p := Target(baseDir, st, args[0]);
      var st' := Dele(baseDir, st, args).st;
      if p in st.fs && Delete(st.fs, p).Some? {
        TargetUnderRoot(baseDir, st, args[0]);
        DeleteInRoot(baseDir, st, p);
        assert st' == st.(fs := Delete(st.fs, p).value);
      } else {
        assert st' == st;
      }
    }
  }

  lemma RmdInRoot(baseDir: string, st: State, args: seq<string>)
    requires Valid(baseDir, st)
    ensures DiskChangeInRoot(baseDir, st, Rmd(baseDir, st, args).st)
  {
    if LoggedIn(st) && |args| > 0 && |args[0]| > 0 {
      var p := Target(baseDir, st, args[0]);
      var st' := Rmd(baseDir, st, args).st;
      if IsDir(st.fs, p) && Delete(st.fs, p).Some? {
        TargetUnderRoot(baseDir, st, args[0]);
        DeleteInRoot(baseDir, st, p);
        assert st' == st.(fs := Delete(st.fs, p).value);
      } else {
        assert st' == st;
      }
    }
  }

  lemma RnfrInRoot(baseDir: string, st: State, args: seq<string>)
    requires Valid(baseDir, st)
    ensures var st' := Rnfr(baseDir, st, args).st;
      st' == st.(renameFile := st'.renameFile) && Valid(baseDir, st')
  {
    if LoggedIn(st) && |args| > 0 && |args[0]| > 0 {
      TargetUnderRoot(baseDir, st, args[0]);
    }
  }

  lemma RntoInRoot(baseDir: string, st: State, args: seq<string>)
    requires Valid(baseDir, st)
    ensures var st' := Rnto(baseDir, st, args).st;
      && SameOutside(st.fs, st'.fs, Root(baseDir))
      && st' == st.(fs := st'.fs, renameFile := st'.renameFile)
      && Valid(baseDir, st')
  {
    if LoggedIn(st) && |args| > 0 && |args[0]| > 0 && st.renameFile.Some? {
      var src, dst := st.renameFile.value, Target(baseDir, st, args[0]);
      TargetUnderRoot(baseDir, st, args[0]);
      if Rename(st.fs, src, dst).Some? {
        RenameInside(st.fs, src, dst, Root(baseDir));
        RenamePreservesTree(st.fs, src, dst);
      }
    }
  }

  /**
   * Whatever their argument, the handlers that resolve it change nothing
   * on the disk outside the server root, and a pending rename they record
   * lies inside it.
   */
  lemma ResolvedCommandsStayInRoot(baseDir: string, env: Env, st: State, verb: string, args: seq<string>, line: string)
    requires Valid(baseDir, st) && verb in Resolving
    ensures var st' := Run(baseDir, env, st, verb, args, line).st;
      SameOutside(st.fs, st'.fs, Root(baseDir)) && Valid(baseDir, st')
  {
    if verb in {"mkd", "rmd", "dele"} {
      DiskCommandsStayInRoot(baseDir, env, st, verb, args, line);
    } else {
      PathCommandsStayInRoot(baseDir, env, st, verb, args, line);
    }
  }

  lemma DiskCommandsStayInRoot(baseDir: string, env: Env, st: State, verb: string, args: seq<string>, line: string)
    requires Valid(baseDir, st) && verb in {"mkd", "rmd", "dele"}
    ensures var st' := Run(baseDir, env, st, verb, args, line).st;
      SameOutside(st.fs, st'.fs, Root(baseDir)) && Valid(baseDir, st')
  {
    if verb == "mkd" {
      RunMkd(baseDir, env, st, args, line);
      MkdInRoot(baseDir, st, args);
    } else if verb == "rmd" {
      RunRmd(baseDir, env, st, args, line);
      RmdInRoot(baseDir, st, args);
    } else {
      RunDele(baseDir, env, st, args, line);
      DeleInRoot(baseDir, st, args);
    }
  }

  lemma PathCommandsStayInRoot(baseDir: string, env: Env, st: State, verb: string, args: seq<string>, line: string)
    requires Valid(baseDir, st) && verb in {"cwd", "rnfr", "rnto"}
    ensures var st' := Run(baseDir, env, st, verb, args, line).st;
      SameOutside(st.fs, st'.fs, Root(baseDir)) && Valid(baseDir, st')
  {
    if verb == "cwd" {
      RunCwd(baseDir, env, st, args, line);
      CwdKeepsValid(baseDir, st, args);
    } else if verb == "rnfr" {
      RunRnfr(baseDir, env, st, args, line);
      RnfrInRoot(baseDir, st, args);
    } else {
      RunRnto(baseDir, env, st, args, line);
      RntoInRoot(baseDir, st, args);
    }
  }

  /** The text after the first five characters of a line with a four-letter verb. */
  lemma TransferArgument(verb: string, rest: string)
    requires |verb| == 4 && |rest| > 0
    ensures |verb + " " + rest| > 5 && (verb + " " + rest)[5..] == rest
  {
  }

  lemma UpsNative(fs: Fs, baseDir: string, currentDir: string, name: string)
    requires ValidBase(baseDir) && Tree(fs) && IsDir(fs, Root(baseDir)) && |Root(baseDir)| > 0
    ensures var ups := Ups(|Root(baseDir)|);
      && |ups + "/" + name| > 0
      && CreateNativePath(baseDir, currentDir, ups + "/" + name) == (baseDir + ups) + "/" + name
      && Lookup(fs, baseDir + ups) == Some([])
  {
    var ups := Ups(|Root(baseDir)|);
    UpsReachOsRoot(fs, baseDir);
    UpsStartsWithSlash(|Root(baseDir)|);
    assert (ups + "/" + name)[0] == '/';
  }

  /** The native path of "/.." repeated as deep as the root, then a name, is that name in the OS root. */
  lemma EscapingTarget(baseDir: string, st: State, verb: string, name: string)
    requires ValidBase(baseDir) && Tree(st.fs) && IsDir(st.fs, Root(baseDir))
    requires |Root(baseDir)| > 0 && CleanSegment(name) && |verb| == 4
    ensures var line := verb + " " + Ups(|Root(baseDir)|) + "/" + name;
      && TransferPath(baseDir, st, line).Some?
      && Lookup(st.fs, TransferPath(baseDir, st, line).value) == Some([name])
      && OsPath(TransferPath(baseDir, st, line).value) == [name]
  {
    var ups := Ups(|Root(baseDir)|);
    var rest := ups + "/" + name;
    var line := verb + " " + ups + "/" + name;
    assert line == verb + " " + rest;
    TransferArgument(verb, rest);
    UpsNative(st.fs, baseDir, st.currentDir, name);
    LookupChild(st.fs, baseDir + ups, name);
    assert [] + [name] == [name];
    assert TransferPath(baseDir, st, line) == Some((baseDir + ups) + "/" + name);
    LookupLexical(st.fs, (baseDir + ups) + "/" + name);
  }

  /**
   * RETR and STOR do not go through resolvePath, so they are not confined:
   * as many "/.." as the root has segments reach the OS root, and STOR
   * there creates a file outside the server root.
   */
  lemma StorCanWriteOutsideRoot(baseDir: string, env: Env, st: State, name: string)
    requires Valid(baseDir, st) && IsDir(st.fs, Root(baseDir)) && LoggedIn(st) && st.address.Some? && env.connects
    requires |Root(baseDir)| > 0 && CleanSegment(name) && name != Root(baseDir)[0] && [name] !in st.fs
    ensures var e := Stor(baseDir, env, st, "STOR " + Ups(|Root(baseDir)|) + "/" + name);
      && e.outcome.Ok?
      && !Under(Root(baseDir), [name])
      && e.st.fs == st.fs[[name] := File(env.upload)]
  {
    var line := "STOR " + Ups(|Root(baseDir)|) + "/" + name;
    assert "STOR " == "STOR" + " ";
    EscapingTarget(baseDir, st, "STOR", name);
    assert Parent([name]) == [];
    StorStoresUpload(baseDir, env, st, line);
  }

  /** Likewise RETR sends a file outside the server root. */
  lemma RetrCanReadOutsideRoot(baseDir: string, env: Env, st: State, name: string)
    requires Valid(baseDir, st) && IsDir(st.fs, Root(baseDir)) && LoggedIn(st) && st.address.Some? && env.connects
    requires |Root(baseDir)| > 0 && CleanSegment(name) && name != Root(baseDir)[0] && IsFile(st.fs, [name])
    ensures var e := Retr(baseDir, env, st, "RETR " + Ups(|Root(baseDir)|) + "/" + name);
      && e.outcome.Ok?
      && !Under(Root(baseDir), [name])
      && SentData(e.events) == st.fs[[name]].content
  {
    assert "RETR " == "RETR" + " ";
    EscapingTarget(baseDir, st, "RETR", name);
    RetrSendsFile(baseDir, env, st, "RETR " + Ups(|Root(baseDir)|) + "/" + name);
  }

  // ---------------------------------------------------------------- the session invariant

  lemma StorKeepsValid(baseDir: string, env: Env, st: State, line: string)
    requires Valid(baseDir, st)
    ensures var st' := Stor(baseDir, env, st, line).st;
      st' == st.(fs := st'.fs) && Valid(baseDir, st')
  {
    var t := TransferPath(baseDir, st, line);
    if LoggedIn(st) && t.Some? && Lookup(st.fs, t.value).Some? {
      var p := Lookup(st.fs, t.value).value;
      if p !in st.fs && CreateFile(st.fs, p).Some? {
        var created := CreateFile(st.fs, p).value;
        CreateFilePreservesTree(st.fs, p);
        WritePreservesTree(created, p, env.upload);
      }
    }
  }

  /** The verbs whose handlers leave the working directory, the disk and the pending rename alone. */
  const Stateless: set<string> := {"user", "pass", "syst", "clnt", "pwd", "type", "port", "list", "retr"}

  lemma StatelessKeepsValid(baseDir: string, env: Env, st: State, verb: string, args: seq<string>, line: string)
    requires verb in Stateless
    ensures var st' := Run(baseDir, env, st, verb, args, line).st;
      st'.fs == st.fs && st'.currentDir == st.currentDir && st'.renameFile == st.renameFile
  {
    if verb in {"user", "pass", "syst", "clnt", "pwd"} {
      LoginCommandsKeepDisk(baseDir, env, st, verb, args, line);
    } else {
      ClientCommandsKeepDisk(baseDir, env, st, verb, args, line);
    }
  }

  lemma LoginCommandsKeepDisk(baseDir: string, env: Env, st: State, verb: string, args: seq<string>, line: string)
    requires verb in {"user", "pass", "syst", "clnt", "pwd"}
    ensures var st' := Run(baseDir, env, st, verb, args, line).st;
      st'.fs == st.fs && st'.currentDir == st.currentDir && st'.renameFile == st.renameFile
  {
    if verb == "user" {
      RunUser(baseDir, env, st, args, line);
    } else if verb == "pass" {
      RunPass(baseDir, env, st, args, line);
    } else if verb == "syst" {
      RunSyst(baseDir, env, st, args, line);
    } else if verb == "clnt" {
      RunClnt(baseDir, env, st, args, line);
    } else {
      RunPwd(baseDir, env, st, args, line);
    }
  }

  lemma ClientCommandsKeepDisk(baseDir: string, env: Env, st: State, verb: string, args: seq<string>, line: string)
    requires verb in {"type", "port", "list", "retr"}
    ensures var st' := Run(baseDir, env, st, verb, args, line).st;
      st'.fs == st.fs && st'.currentDir == st.currentDir && st'.renameFile == st.renameFile
  {
    if verb == "type" {
      RunType(baseDir, env, st, args, line);
    } else if verb == "port" {
      RunPort(baseDir, env, st, args, line);
    } else if verb == "list" {
      RunList(baseDir, env, st, args, line);
    } else {
      RunRetr(baseDir, env, st, args, line);
    }
  }

  /** A handler at the start, on a valid root and a tree-shaped disk, satisfies the session invariant. */
  lemma InitialValid(baseDir: string, fs: Fs)
    requires ValidBase(baseDir) && Tree(fs)
    ensures Valid(baseDir, Initial(fs))
  {
    RenderIsResolved([]);
    assert Render([]) == "/";
  }

  /**
   * Every line keeps the session invariant: the working directory stays a
   * resolved path, the disk stays a tree, and a pending rename stays
   * inside the root.
   */
  lemma StepPreservesValid(baseDir: string, env: Env, st: State, line: string)
    requires Valid(baseDir, st)
    ensures Valid(baseDir, Step(baseDir, env, st, line).st)
  {
    var v := VerbOf(line);
    if v.Some? && v.value in Verbs {
      StepRuns(baseDir, env, st, line);
      var verb, args := v.value, ArgsOf(line);
      if verb in Resolving {
        ResolvedCommandsStayInRoot(baseDir, env, st, verb, args, line);
      } else if verb == "stor" {
        RunStor(baseDir, env, st, args, line);
        StorKeepsValid(baseDir, env, st, line);
      } else {
        StatelessKeepsValid(baseDir, env, st, verb, args, line);
      }
    }
  }
}
