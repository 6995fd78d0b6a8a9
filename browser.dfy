/**
 * The managed browser: where its debugging port comes from, the command line
 * it is launched with, and the supervisor that relaunches it when the
 * recorded process is gone.
 */
module Browser {

  import opened Wrappers
  import opened Decimal

  /**
   * `address.split(":")[-1]`: the text after the last ':' of an address, or
   * the whole address when it has none.
   */
  function PortText(address: string): (r: string)
    ensures |r| <= |address| && r == address[|address| - |r|..]
    ensures ':' !in r
    ensures |r| < |address| ==> address[|address| - |r| - 1] == ':'
  {
    if address == [] || address[|address| - 1] == ':' then []
    else PortText(address[..|address| - 1]) + [address[|address| - 1]]
  }

  /** `os.name`: the launcher picks the executable by platform. */
  datatype Platform = Windows | Posix

  function ChromePath(platform: Platform, posixPath: string, windowsPath: string): string {
    if platform == Windows then windowsPath else posixPath
  }

  const PortFlag := "--remote-debugging-port="
  const ProfileFlag := "--user-data-dir="

  /** The value of `arg` after `flag`, when `arg` starts with `flag`. */
  function FlagValue(arg: string, flag: string): Option<string> {
    if |flag| <= |arg| && arg[..|flag|] == flag then Some(arg[|flag|..]) else None
  }

  /** The argument list the browser is started with. */
  function BrowserArgv(exe: string, port: nat, profileDir: string): (argv: seq<string>)
    ensures |argv| == 7 && argv[0] == exe
  {
    [exe, "--no-sandbox", "--disable-dev-shm-usage", PortFlag + NatToDecimal(port),
     "--incognito", "-remote-allow-origins=*", ProfileFlag + profileDir]
  }

  /**
   * The command line has seven entries, the executable first; exactly one
   * option carries the debugging port and exactly one the profile
   * directory, and both read back as given.
   */
  lemma BrowserArgvReadBack(exe: string, port: nat, profileDir: string)
    ensures var argv := BrowserArgv(exe, port, profileDir);
      && |argv| == 7 && argv[0] == exe
      && (forall i :: 1 <= i < 7 ==> (FlagValue(argv[i], PortFlag).Some? <==> i == 3))
      && (forall i :: 1 <= i < 7 ==> (FlagValue(argv[i], ProfileFlag).Some? <==> i == 6))
      && FlagValue(argv[3], PortFlag).Some?
      && ParseDecimal(FlagValue(argv[3], PortFlag).value) == Some(port)
      && FlagValue(argv[6], ProfileFlag) == Some(profileDir)
  {
    var argv := BrowserArgv(exe, port, profileDir);
    ParseNatToDecimal(port);
    assert argv[3][..|PortFlag|] == PortFlag && argv[3][|PortFlag|..] == NatToDecimal(port);
    assert argv[6][..|ProfileFlag|] == ProfileFlag && argv[6][|ProfileFlag|..] == profileDir;
    if |PortFlag| <= |argv[6]| {
      assert argv[6][..|PortFlag|][2] != PortFlag[2];
    }
    assert argv[3][..|ProfileFlag|][2] != ProfileFlag[2];
  }

  /**
   * Starting the browser: `popen` stands for the operating system, giving
   * the new process id for an argument list or None when the launch raises;
   * the result is (pid, port) or (None, None).
   */
  function CreateRemoteBrowser(popen: seq<string> -> Option<nat>, exe: string, port: nat,
                               tempDir: string): (r: (Option<nat>, Option<nat>))
    ensures r.0 == popen(BrowserArgv(exe, port, tempDir))
    ensures r.1 == if r.0.Some? then Some(port) else None
  {
    match popen(BrowserArgv(exe, port, tempDir))
    case Some(pid) => (Some(pid), Some(port))
    case None => (None, None)
  }

  /** What a status request reports, or that it failed on a non-numeric port. */
  datatype Outcome = Running(pid: nat) | Restarted(newPid: Option<nat>, newPort: Option<nat>) | PortNotNumeric

  /** `str()` of an optional number: its digits, or "None". */
  function ShowOption(o: Option<nat>): string {
    match o
    case None => "None"
    case Some(n) => NatToDecimal(n)
  }

  const RestartPrefix := "re start browser="

  /** The status text the JSON reply carries; a failed request has none. */
  function StatusText(o: Outcome): (r: Option<string>)
    ensures r.None? <==> o.PortNotNumeric?
  {
    match o
    case Running(pid) => Some("running:" + NatToDecimal(pid))
    case Restarted(pid, port) => Some(RestartPrefix + ShowOption(pid) + ":" + ShowOption(port))
    case PortNotNumeric => None
  }

  /**
   * The status text names the process it reports: after "running:" its
   * digits read back as the pid; after a restart the text between the
   * prefix and the last ':' reads back as the new pid and the text after it
   * as the port, each "None" when the launch failed.
   */
  lemma StatusTextReadBack(o: Outcome)
    ensures o.Running? ==>
      && StatusText(o).Some?
      && |StatusText(o).value| > 8 && StatusText(o).value[..8] == "running:"
      && ParseDecimal(StatusText(o).value[8..]) == Some(o.pid)
    ensures o.Restarted? ==>
      && StatusText(o).Some? && ReadRestart(StatusText(o).value).Some?
      && var (pidText, portText) := ReadRestart(StatusText(o).value).value;
      && (o.newPid.Some? ==> ParseDecimal(pidText) == Some(o.newPid.value))
      && (o.newPid.None? ==> pidText == "None")
      && (o.newPort.Some? ==> ParseDecimal(portText) == Some(o.newPort.value))
      && (o.newPort.None? ==> portText == "None")
  {
    match o
    case Running(pid) =>
      ParseNatToDecimal(pid);
      var t := StatusText(o).value;
      assert t[8..] == NatToDecimal(pid);
    case Restarted(pid, port) =>
      RestartTextReadBack(pid, port);
      ShowOptionReadBack(pid);
      ShowOptionReadBack(port);
    case PortNotNumeric =>
  }

  /**
   * Reads a restart status text back: the text between the prefix and the
   * last ':' as the pid, the text after it as the port.
   */
  function ReadRestart(t: string): Option<(string, string)> {
    var port := PortText(t);
    if |RestartPrefix| + |port| < |t| && t[..|RestartPrefix|] == RestartPrefix
    then Some((t[|RestartPrefix|..|t| - |port| - 1], port))
    else None
  }

  /** The number, or "None", that `ShowOption` writes reads back as the option. */
  lemma ShowOptionReadBack(x: Option<nat>)
    ensures x.Some? ==> ParseDecimal(ShowOption(x)) == Some(x.value)
    ensures x.None? ==> ShowOption(x) == "None"
    ensures ':' !in ShowOption(x)
  {
    if x.Some? {
      ParseNatToDecimal(x.value);
      assert AllDigits(NatToDecimal(x.value));
    }
  }

  lemma RestartTextReadBack(pid: Option<nat>, port: Option<nat>)
    ensures ReadRestart(StatusText(Restarted(pid, port)).value)
         == Some((ShowOption(pid), ShowOption(port)))
  {
    var a, b := ShowOption(pid), ShowOption(port);
    var head := RestartPrefix + a + ":";
    var t := StatusText(Restarted(pid, port)).value;
    assert t == head + b;
    ShowOptionReadBack(port);
    PortTextOfSuffix(head, b);
    assert t[..|RestartPrefix|] == RestartPrefix;
    assert t[|RestartPrefix|..|t| - |b| - 1] == a;
  }

  /** A character `json.dumps` writes as it is inside a string. */
  predicate JsonPlain(c: char) {
    ' ' <= c <= '~' && c != '"' && c != '\\'
  }

  predicate AllJsonPlain(s: string) {
    forall i :: 0 <= i < |s| ==> JsonPlain(s[i])
  }

  lemma ConcatJsonPlain(a: string, b: string)
    requires AllJsonPlain(a) && AllJsonPlain(b)
    ensures AllJsonPlain(a + b)
  {
    forall i | 0 <= i < |a + b|
      ensures JsonPlain((a + b)[i])
    {
      if i < |a| { assert (a + b)[i] == a[i]; } else { assert (a + b)[i] == b[i - |a|]; }
    }
  }

  lemma ShowOptionIsJsonPlain(x: Option<nat>)
    ensures AllJsonPlain(ShowOption(x))
  {
    if x.Some? {
      assert AllDigits(NatToDecimal(x.value));
    }
  }

  /**
   * Every status text is written by `json.dumps` without escapes, so the
   * reply body is the text between fixed delimiters.
   */
  lemma StatusTextIsJsonPlain(o: Outcome)
    requires StatusText(o).Some?
    ensures AllJsonPlain(StatusText(o).value)
  {
    match o
    case Running(pid) =>
      ShowOptionIsJsonPlain(Some(pid));
      ConcatJsonPlain("running:", NatToDecimal(pid));
    case Restarted(pid, port) =>
      ShowOptionIsJsonPlain(pid);
      ShowOptionIsJsonPlain(port);
      ConcatJsonPlain(RestartPrefix, ShowOption(pid));
      ConcatJsonPlain(RestartPrefix + ShowOption(pid), ":");
      ConcatJsonPlain(RestartPrefix + ShowOption(pid) + ":", ShowOption(port));
  }

  const BodyOpen := "{\"status\": \""
  const BodyClose := "\"}"

  /**
   * Reads the status back from a reply body `{"status": "<text>"}` whose
   * text needs no escapes.
   */
  function ReadStatusBody(body: string): Option<string> {
    if |BodyOpen| + |BodyClose| <= |body|
       && body[..|BodyOpen|] == BodyOpen && body[|body| - |BodyClose|..] == BodyClose
       && AllJsonPlain(body[|BodyOpen|..|body| - |BodyClose|])
    then Some(body[|BodyOpen|..|body| - |BodyClose|])
    else None
  }

  /**
   * `json.dumps({"status": text})`: the reply body of the outcomes that
   * have one, from which the status text reads back.
   */
  function StatusBody(o: Outcome): (r: Option<string>)
    ensures r.None? <==> o.PortNotNumeric?
    ensures r.Some? ==> ReadStatusBody(r.value) == StatusText(o)
  {
    match StatusText(o)
    case None => None
    case Some(text) =>
      var body := BodyOpen + text + BodyClose;
      StatusTextIsJsonPlain(o);
      assert body[..|BodyOpen|] == BodyOpen && body[|body| - |BodyClose|..] == BodyClose;
      assert body[|BodyOpen|..|body| - |BodyClose|] == text;
      Some(body)
  }

  /** Text ending in ':' followed by colon-free text splits at that ':'. */
  lemma {:induction false} PortTextOfSuffix(head: string, tail: string)
    requires |head| > 0 && head[|head| - 1] == ':' && ':' !in tail
    ensures PortText(head + tail) == tail
    decreases |tail|
  {
    var s := head + tail;
    if tail == [] {
      assert s == head;
    } else {
      assert s[..|s| - 1] == head + tail[..|tail| - 1];
      PortTextOfSuffix(head, tail[..|tail| - 1]);
      assert tail == tail[..|tail| - 1] + [tail[|tail| - 1]];
    }
  }

  /** The recorded process must be replaced: there is none, or it has died. */
  predicate NeedsSpawn(slot: Option<nat>, isAlive: nat -> bool) {
    slot.None? || !isAlive(slot.value)
  }

  /**
   * One status request against the recorded process: the new contents of
   * the slot and the reply. `isAlive` is asked only about a recorded pid;
   * the port text is converted only when a launch is needed.
   */
  function Transition(slot: Option<nat>, isAlive: nat -> bool, popen: seq<string> -> Option<nat>,
                      exe: string, portText: string, tempDir: string): (r: (Option<nat>, Outcome))
    ensures r.1.Running? <==> !NeedsSpawn(slot, isAlive)
    ensures r.1.Running? ==> r.0 == slot == Some(r.1.pid)
    ensures r.1.Restarted? ==> r.0 == r.1.newPid
    ensures r.1.PortNotNumeric? <==> NeedsSpawn(slot, isAlive) && ParseDecimal(portText).None?
    ensures r.0 != slot ==> r.1.Restarted?
  {
    if !NeedsSpawn(slot, isAlive) then (slot, Running(slot.value))
    else match ParseDecimal(portText)
      case None => (slot, PortNotNumeric)
      case Some(port) =>
        var (pid, p) := CreateRemoteBrowser(popen, exe, port, tempDir);
        (pid, Restarted(pid, p))
  }

  /** A live recorded process is left alone and reported as running. */
  lemma TransitionKeepsLiveProcess(slot: Option<nat>, isAlive: nat -> bool,
                                   popen: seq<string> -> Option<nat>, exe: string,
                                   portText: string, tempDir: string)
    requires slot.Some? && isAlive(slot.value)
    ensures Transition(slot, isAlive, popen, exe, portText, tempDir) == (slot, Running(slot.value))
  {
  }

  /**
   * With no live process the browser is launched on the configured port,
   * and the slot and the reply both carry what the launch returned.
   */
  lemma TransitionRelaunches(slot: Option<nat>, isAlive: nat -> bool,
                             popen: seq<string> -> Option<nat>, exe: string,
                             portText: string, tempDir: string)
    requires NeedsSpawn(slot, isAlive) && ParseDecimal(portText).Some?
    ensures var (slot', reply) := Transition(slot, isAlive, popen, exe, portText, tempDir);
      var port := ParseDecimal(portText).value;
      && slot' == popen(BrowserArgv(exe, port, tempDir))
      && reply == Restarted(slot', if slot'.Some? then Some(port) else None)
  {
  }

  /**
   * A failed launch leaves the slot empty, so the next status request
   * launches again, whatever the process table then says.
   */
  lemma FailedLaunchRetried(slot: Option<nat>, isAlive: nat -> bool,
                            popen: seq<string> -> Option<nat>, exe: string,
                            portText: string, tempDir: string, isAliveNext: nat -> bool)
    requires NeedsSpawn(slot, isAlive) && ParseDecimal(portText).Some?
    requires popen(BrowserArgv(exe, ParseDecimal(portText).value, tempDir)).None?
    ensures var (slot', reply) := Transition(slot, isAlive, popen, exe, portText, tempDir);
      && slot' == None && reply == Restarted(None, None)
      && StatusText(reply) == Some("re start browser=None:None")
      && NeedsSpawn(slot', isAliveNext)
  {
    assert RestartPrefix + "None" + ":" + "None" == "re start browser=None:None";
  }

  /**
   * After a successful launch, a request that finds the new process alive
   * reports it as running without launching again.
   */
  lemma LaunchedThenRunning(slot: Option<nat>, isAlive: nat -> bool,
                            popen: seq<string> -> Option<nat>, exe: string,
                            portText: string, tempDir: string,
                            isAliveNext: nat -> bool, popenNext: seq<string> -> Option<nat>,
                            tempDirNext: string)
    requires NeedsSpawn(slot, isAlive) && ParseDecimal(portText).Some?
    requires var pid := popen(BrowserArgv(exe, ParseDecimal(portText).value, tempDir));
      pid.Some? && isAliveNext(pid.value)
    ensures var (slot', _) := Transition(slot, isAlive, popen, exe, portText, tempDir);
      && slot'.Some?
      && Transition(slot', isAliveNext, popenNext, exe, portText, tempDirNext)
         == (slot', Running(slot'.value))
  {
  }

  /**
   * The supervisor: the one recorded browser process (`now_pid`), the
   * executable and the port text chosen at startup.
   */
  class BrowserSupervisor {
    var nowPid: Option<nat>
    const exe: string
    const portText: string

    /**
     * Startup: the executable is the one configured for the platform; the
     * port is the text after the last ':' of the remote address; when the
     * browser is to be run at startup it is launched once, and a non-numeric
     * port then stops the program, so it is required.
     */
    constructor (remote: string, platform: Platform, posixPath: string, windowsPath: string,
                 runBrowser: bool, popen: seq<string> -> Option<nat>, tempDir: string)
      requires runBrowser ==> ParseDecimal(PortText(remote)).Some?
      ensures exe == ChromePath(platform, posixPath, windowsPath) && portText == PortText(remote)
      ensures nowPid == if runBrowser
                        then popen(BrowserArgv(exe, ParseDecimal(PortText(remote)).value, tempDir))
                        else None
    {
      var path := ChromePath(platform, posixPath, windowsPath);
      exe := path;
      portText := PortText(remote);
      if runBrowser {
        var port := ParseDecimal(PortText(remote)).value;
        var (pid, _) := CreateRemoteBrowser(popen, path, port, tempDir);
        nowPid := pid;
      } else {
        nowPid := None;
      }
    }

    /**
     * The status request: relaunches the browser when no process is
     * recorded or the recorded one is dead, and otherwise reports it.
     * `launched` tells whether the browser was started.
     */
    method CheckBrowser(isAlive: nat -> bool, popen: seq<string> -> Option<nat>, tempDir: string)
      returns (reply: Outcome, launched: bool)
      modifies this
      ensures (nowPid, reply) == Transition(old(nowPid), isAlive, popen, exe, portText, tempDir)
      ensures launched <==> NeedsSpawn(old(nowPid), isAlive) && ParseDecimal(portText).Some?
      ensures !NeedsSpawn(old(nowPid), isAlive) ==> nowPid == old(nowPid) && reply == Running(nowPid.value)
      ensures launched ==> reply.Restarted? && reply.newPid == nowPid
      ensures !launched ==> nowPid == old(nowPid)
    {
      if nowPid == None || !isAlive(nowPid.value) {
        var port := ParseDecimal(portText);
        if port == None {
          reply, launched := PortNotNumeric, false;
        } else {
          var (pid, p) := CreateRemoteBrowser(popen, exe, port.value, tempDir);
          nowPid := pid;
          reply, launched := Restarted(pid, p), true;
        }
      } else {
        reply, launched := Running(nowPid.value), false;
      }
    }
  }
}
