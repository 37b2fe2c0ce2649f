/** The HTTP front end shared by servers and proxy: it turns a path or a body into commands. */
module HttpHandler {
  import opened Text
  import opened SshServer

  /* ---- the HTTP library's part ---- */

  /** The path a handler sees for the path a client asks for, or the error the client gets. */
  datatype Routed = Arrives(path: string) | Undelivered(error: string)

  datatype Http = Http(route: string -> Routed)

  /** Any visible ASCII character that URL syntax gives no meaning to inside a path segment. */
  predicate TameChar(c: char) {
    '!' <= c <= '~' && c != '%' && c != '?' && c != '#' && c != '/'
  }

  /** A path segment that URL syntax and path cleaning leave alone. */
  predicate Tame(seg: string) {
    seg != "" && seg != "." && seg != ".." && forall i :: 0 <= i < |seg| ==> TameChar(seg[i])
  }

  predicate AllTame(segs: seq<string>) {
    segs != [] && forall i :: 0 <= i < |segs| ==> Tame(segs[i])
  }

  function PathOf(segs: seq<string>): string {
    "/" + Join(segs, '/')
  }

  /** Taken from the HTTP library: a path of tame segments arrives unchanged, with or without a slash
      at its end. */
  ghost predicate KeepsTame(h: Http) {
    forall segs :: AllTame(segs) ==>
      h.route(PathOf(segs)) == Arrives(PathOf(segs)) && h.route(PathOf(segs) + "/") == Arrives(PathOf(segs) + "/")
  }

  /* ---- the handlers ---- */

  /** What running a list of commands gives, and what the handler answers. */
  datatype RunResult = Ran(output: string) | RunFailed(error: string)

  datatype Response = Response(status: nat, body: string)

  const EXEC_PREFIX: string := "/admin/exec/"

  function Spaced(parts: seq<string>): seq<string> {
    if parts == [] then [] else [Replace(parts[0], '+', ' ')] + Spaced(parts[1..])
  }

  /** The commands in what follows the prefix of an exec path. */
  function PathCommands(path: string): seq<string> {
    NonBlank(Spaced(Split(path, '/')))
  }

  lemma {:induction false} SpacedAppend(a: seq<string>, b: seq<string>)
    ensures Spaced(a + b) == Spaced(a) + Spaced(b)
  {
    if a == [] {
      assert a + b == b;
    } else {
      assert (a + b)[1..] == a[1..] + b;
      SpacedAppend(a[1..], b);
    }
  }

  method ParsePath(path: string) returns (cmds: seq<string>)
    ensures cmds == PathCommands(path)
  {
    hide Trim;
    cmds := [];
    var parts := Split(path, '/');
    for i := 0 to |parts|
      invariant cmds == NonBlank(Spaced(parts[..i]))
    {
      var part := Replace(parts[i], '+', ' ');
      var cmd := Trim(part);
      assert parts[..i + 1] == parts[..i] + [parts[i]];
      SpacedAppend(parts[..i], [parts[i]]);
      OneSpaced(parts[i]);
      NonBlankAppend(Spaced(parts[..i]), [part]);
      NonBlankLine(part);
      if cmd != "" { cmds := cmds + [cmd]; }
    }
    assert parts[..|parts|] == parts;
  }

  lemma OneSpaced(part: string)
    ensures Spaced([part]) == [Replace(part, '+', ' ')]
  {
    assert [part][1..] == [];
  }

  method ParseBody(body: string) returns (cmds: seq<string>)
    ensures cmds == Commands(body)
  {
    hide Trim;
    cmds := [];
    var lines := Split(body, LF);
    for i := 0 to |lines|
      invariant cmds == NonBlank(lines[..i])
    {
      var cmd := Trim(lines[i]);
      assert lines[..i + 1] == lines[..i] + [lines[i]];
      NonBlankAppend(lines[..i], [lines[i]]);
      NonBlankLine(lines[i]);
      if cmd != "" { cmds := cmds + [cmd]; }
    }
    assert lines[..|lines|] == lines;
  }

  function Answer(r: RunResult): Response {
    match r
    case Ran(output) => Response(200, output)
    case RunFailed(error) => Response(502, error + "\n")
  }

  /** GET on an exec path. */
  function ExecResponse(urlPath: string, run: seq<string> -> RunResult): Response {
    var path := TrimPrefix(urlPath, EXEC_PREFIX);
    if path == "" then Response(400, "no command\n") else Answer(run(PathCommands(path)))
  }

  /** POST of a configuration. */
  function ConfigResponse(post: bool, body: string, run: seq<string> -> RunResult): Response {
    if !post then Response(405, "POST required\n") else Answer(run(Commands(body)))
  }
}
