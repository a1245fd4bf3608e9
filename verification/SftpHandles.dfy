/** The handle tables of the SFTP server (crates/embedded-ssh/src/sftp.rs),
    and what they guarantee over every run of calls. Whether the file system
    does what it is asked is a parameter of each call. */
module SftpHandles {
  import opened Text

  const U64_LIMIT: nat := 0x1_0000_0000_0000_0000

  datatype DirHandle = DirHandle(path: string, entriesSent: bool)

  datatype State = State(nextHandle: nat, files: map<string, string>, dirs: map<string, DirHandle>)

  const INITIAL := State(0, map[], map[])

  datatype Call =
    | Open(path: string, succeeds: bool)
    | OpenDir(path: string, isDirectory: bool)
    | Read(handle: string, count: Option<nat>)
    | ReadDir(handle: string, succeeds: bool)
    | Close(handle: string)

  datatype Reply = Handle(handle: string) | Names | Data(length: nat) | Ok | Eof | Failed

  // ------------------------------------------------------------ handle strings

  function HandleName(n: nat): string {
    "h" + Decimal(n)
  }

  lemma HandleNamesDiffer(m: nat, n: nat)
    requires HandleName(m) == HandleName(n)
    ensures m == n
  {
    assert HandleName(m)[1..] == Decimal(m) && HandleName(n)[1..] == Decimal(n);
    ParseOfDecimal(m);
    ParseOfDecimal(n);
  }

  // ------------------------------------------------------------------ one call

  function Alloc(s: State): State {
    s.(nextHandle := (s.nextHandle + 1) % U64_LIMIT)
  }

  function Next(s: State, c: Call): State {
    var h := HandleName(s.nextHandle);
    match c
    case Open(path, succeeds) => if succeeds then Alloc(s).(files := s.files[h := path]) else s
    case OpenDir(path, isDirectory) => if isDirectory then Alloc(s).(dirs := s.dirs[h := DirHandle(path, false)]) else s
    case Read(_, _) => s
    case ReadDir(handle, succeeds) =>
      if handle in s.dirs && !s.dirs[handle].entriesSent && succeeds then
        s.(dirs := s.dirs[handle := s.dirs[handle].(entriesSent := true)])
      else s
    case Close(handle) =>
      if handle in s.files then s.(files := s.files - {handle}) else s.(dirs := s.dirs - {handle})
  }

  function ReplyTo(s: State, c: Call): Reply {
    match c
    case Open(_, succeeds) => if succeeds then Handle(HandleName(s.nextHandle)) else Failed
    case OpenDir(_, isDirectory) => if isDirectory then Handle(HandleName(s.nextHandle)) else Failed
    case Read(handle, count) =>
      if handle !in s.files || count.None? then Failed
      else if count.value == 0 then Eof
      else Data(count.value)
    case ReadDir(handle, succeeds) =>
      if handle !in s.dirs then Failed
      else if s.dirs[handle].entriesSent then Eof
      else if succeeds then Names
      else Failed
    case Close(handle) => if handle in s.files || handle in s.dirs then Ok else Failed
  }

  // ------------------------------------------------------------- the server

  class SftpHandler {
    var nextHandle: nat
    var fileHandles: map<string, string>
    var dirHandles: map<string, DirHandle>

    function Abstract(): State
      reads this
    {
      State(nextHandle, fileHandles, dirHandles)
    }

    constructor ()
      ensures Abstract() == INITIAL
    {
      nextHandle, fileHandles, dirHandles := 0, map[], map[];
    }

    method AllocHandle() returns (handle: string)
      modifies this
      ensures handle == HandleName(old(nextHandle))
      ensures Abstract() == Alloc(old(Abstract()))
    {
      var h := nextHandle;
      nextHandle := (nextHandle + 1) % U64_LIMIT;
      handle := HandleName(h);
    }

    method OpenFile(path: string, succeeds: bool) returns (reply: Reply)
      modifies this
      ensures Abstract() == Next(old(Abstract()), Open(path, succeeds))
      ensures reply == ReplyTo(old(Abstract()), Open(path, succeeds))
    {
      if !succeeds {
        return Failed;
      }
      var handle := AllocHandle();
      fileHandles := fileHandles[handle := path];
      reply := Handle(handle);
    }

    method OpenDirectory(path: string, isDirectory: bool) returns (reply: Reply)
      modifies this
      ensures Abstract() == Next(old(Abstract()), OpenDir(path, isDirectory))
      ensures reply == ReplyTo(old(Abstract()), OpenDir(path, isDirectory))
    {
      if !isDirectory {
        return Failed;
      }
      var handle := AllocHandle();
      dirHandles := dirHandles[handle := DirHandle(path, false)];
      reply := Handle(handle);
    }

    method ReadFile(handle: string, count: Option<nat>) returns (reply: Reply)
      ensures reply == ReplyTo(Abstract(), Read(handle, count))
    {
      if handle !in fileHandles {
        return Failed;
      }
      if count.None? {
        return Failed;
      }
      var n := count.value;
      if n == 0 {
        return Eof;
      }
      reply := Data(n);
    }

    method ReadDirectory(handle: string, succeeds: bool) returns (reply: Reply)
      modifies this
      ensures Abstract() == Next(old(Abstract()), ReadDir(handle, succeeds))
      ensures reply == ReplyTo(old(Abstract()), ReadDir(handle, succeeds))
    {
      if handle !in dirHandles {
        return Failed;
      }
      if dirHandles[handle].entriesSent {
        return Eof;
      }
      if !succeeds {
        return Failed;
      }
      if handle in dirHandles {
        dirHandles := dirHandles[handle := dirHandles[handle].(entriesSent := true)];
      }
      reply := Names;
    }

    method CloseHandle(handle: string) returns (reply: Reply)
      modifies this
      ensures Abstract() == Next(old(Abstract()), Close(handle))
      ensures reply == ReplyTo(old(Abstract()), Close(handle))
    {
      if handle in fileHandles {
        fileHandles := fileHandles - {handle};
        return Ok;
      }
      var removed := handle in dirHandles;
      dirHandles := dirHandles - {handle};
      reply := if removed then Ok else Failed;
    }
  }

  // -------------------------------------------------------------- every run

  datatype Event = Event(call: Call, reply: Reply)

  function StateAfter(run: seq<Event>): State {
    if run == [] then INITIAL else Next(StateAfter(run[..|run| - 1]), run[|run| - 1].call)
  }

  /** The replies are those of a server that started with empty tables. */
  ghost predicate Genuine(run: seq<Event>) {
    run == [] ||
    var init, last := run[..|run| - 1], run[|run| - 1];
    Genuine(init) && last.reply == ReplyTo(StateAfter(init), last.call)
  }

  function Allocations(run: seq<Event>): nat {
    if run == [] then 0
    else Allocations(run[..|run| - 1]) + if run[|run| - 1].reply.Handle? then 1 else 0
  }

  ghost predicate Returned(run: seq<Event>, h: string) {
    exists i :: 0 <= i < |run| && run[i].reply == Handle(h)
  }

  ghost predicate ReturnedDir(run: seq<Event>, h: string) {
    exists i :: 0 <= i < |run| && run[i].call.OpenDir? && run[i].reply == Handle(h)
  }

  ghost predicate ReturnedFile(run: seq<Event>, h: string) {
    exists i :: 0 <= i < |run| && run[i].call.Open? && run[i].reply == Handle(h)
  }

  ghost predicate Closed(run: seq<Event>, h: string) {
    exists i :: 0 <= i < |run| && run[i] == Event(Close(h), Ok)
  }

  ghost predicate Listed(run: seq<Event>, h: string) {
    exists i :: 0 <= i < |run| && run[i].call.ReadDir? && run[i].call.handle == h && run[i].reply == Names
  }

  /** What the tables say about a handle, in terms of the run so far. */
  ghost predicate TablesMatch(run: seq<Event>, h: string) {
    var s := StateAfter(run);
    && (h in s.files <==> ReturnedFile(run, h) && !Closed(run, h))
    && (h in s.dirs <==> ReturnedDir(run, h) && !Closed(run, h))
    && (h in s.dirs ==> (s.dirs[h].entriesSent <==> Listed(run, h)))
    && (Listed(run, h) ==> ReturnedDir(run, h))
    && (Closed(run, h) ==> Returned(run, h))
    && !(ReturnedFile(run, h) && ReturnedDir(run, h))
  }

  lemma {:induction false} GenuinePrefix(run: seq<Event>, n: nat)
    requires Genuine(run) && n <= |run|
    ensures Genuine(run[..n])
    ensures n < |run| ==> run[n].reply == ReplyTo(StateAfter(run[..n]), run[n].call)
    decreases |run|
  {
    if n < |run| {
      var init := run[..|run| - 1];
      assert init[..n] == run[..n];
      if n < |run| - 1 {
        GenuinePrefix(init, n);
      }
    } else {
      assert run[..n] == run;
    }
  }

  lemma NextHandleStep(s: State, c: Call)
    ensures Next(s, c).nextHandle == if ReplyTo(s, c).Handle? then (s.nextHandle + 1) % U64_LIMIT else s.nextHandle
    ensures ReplyTo(s, c).Handle? ==> ReplyTo(s, c).handle == HandleName(s.nextHandle)
  {
  }

  lemma {:induction false} NextHandleCounts(run: seq<Event>)
    requires Genuine(run) && Allocations(run) < U64_LIMIT
    ensures StateAfter(run).nextHandle == Allocations(run)
  {
    if run != [] {
      var init, last := run[..|run| - 1], run[|run| - 1];
      NextHandleCounts(init);
      NextHandleStep(StateAfter(init), last.call);
    }
  }

  lemma {:induction false} ReturnedNames(run: seq<Event>, h: string)
    requires Genuine(run) && Allocations(run) < U64_LIMIT && Returned(run, h)
    ensures exists k: nat :: k < Allocations(run) && h == HandleName(k)
  {
    var init, last := run[..|run| - 1], run[|run| - 1];
    if last.reply == Handle(h) {
      NextHandleCounts(init);
      NextHandleStep(StateAfter(init), last.call);
      assert h == HandleName(Allocations(init));
    } else {
      var i :| 0 <= i < |run| && run[i].reply == Handle(h);
      assert init[i] == run[i];
      ReturnedNames(init, h);
    }
  }

  lemma {:induction false} AllocationsGrow(run: seq<Event>, n: nat)
    requires n <= |run|
    ensures Allocations(run[..n]) <= Allocations(run)
    decreases |run|
  {
    if n < |run| {
      AllocationsGrow(run[..|run| - 1], n);
      assert run[..|run| - 1][..n] == run[..n];
    } else {
      assert run[..n] == run;
    }
  }

  lemma NextIsUnused(run: seq<Event>, h: string)
    requires Genuine(run) && Allocations(run) < U64_LIMIT && h == HandleName(Allocations(run))
    ensures !Returned(run, h)
  {
    if Returned(run, h) {
      ReturnedNames(run, h);
      var k: nat :| k < Allocations(run) && h == HandleName(k);
      HandleNamesDiffer(k, Allocations(run));
    }
  }

  /** A newly returned handle has not been returned before. */
  lemma FreshHandle(run: seq<Event>, i: nat, h: string)
    requires Genuine(run) && Allocations(run) < U64_LIMIT && i < |run| && run[i].reply == Handle(h)
    ensures !Returned(run[..i], h)
  {
    GenuinePrefix(run, i);
    NextHandleStep(StateAfter(run[..i]), run[i].call);
    AllocationsGrow(run, i);
    NextHandleCounts(run[..i]);
    NextIsUnused(run[..i], h);
  }

  /** No handle is returned twice. */
  lemma HandlesAreDistinct(run: seq<Event>, i: nat, j: nat)
    requires Genuine(run) && Allocations(run) < U64_LIMIT && i < j < |run|
    requires run[i].reply.Handle? && run[j].reply.Handle?
    ensures run[i].reply != run[j].reply
  {
    FreshHandle(run, j, run[j].reply.handle);
    assert run[..j][i] == run[i];
  }

  lemma {:induction false} TablesAlwaysMatch(run: seq<Event>, h: string)
    requires Genuine(run) && Allocations(run) < U64_LIMIT
    ensures TablesMatch(run, h)
  {
    if run != [] {
      var n := |run| - 1;
      var init, last := run[..n], run[n];
      assert run == init + [last];
      GenuinePrefix(run, n);
      AllocationsGrow(run, n);
      TablesAlwaysMatch(init, h);
      if last.reply == Handle(h) {
        FreshHandle(run, n, h);
      }
      MatchStep(init, last, h);
    }
  }

  lemma MatchStep(init: seq<Event>, last: Event, h: string)
    requires TablesMatch(init, h) && last.reply == ReplyTo(StateAfter(init), last.call)
    requires last.reply == Handle(h) ==> !Returned(init, h)
    ensures TablesMatch(init + [last], h)
  {
    assert (init + [last])[..|init|] == init;
    ReturnedNext(init, last, h);
    ClosedNext(init, last, h);
    if ReturnedFile(init, h) || ReturnedDir(init, h) {
      ReturnedSomehow(init, h);
    }
  }

  lemma ReturnedSomehow(run: seq<Event>, h: string)
    requires ReturnedFile(run, h) || ReturnedDir(run, h)
    ensures Returned(run, h)
  {
  }

  lemma ReturnedNext(init: seq<Event>, last: Event, h: string)
    ensures var run := init + [last];
            && (ReturnedFile(run, h) <==> ReturnedFile(init, h) || (last.call.Open? && last.reply == Handle(h)))
            && (ReturnedDir(run, h) <==> ReturnedDir(init, h) || (last.call.OpenDir? && last.reply == Handle(h)))
            && (Returned(run, h) <==> Returned(init, h) || last.reply == Handle(h))
  {
    AnyEvent(init, last);
  }

  lemma ClosedNext(init: seq<Event>, last: Event, h: string)
    ensures var run := init + [last];
            && (Closed(run, h) <==> Closed(init, h) || last == Event(Close(h), Ok))
            && (Listed(run, h) <==> Listed(init, h) || (last.call.ReadDir? && last.call.handle == h && last.reply == Names))
  {
    AnyEvent(init, last);
  }

  lemma AnyEvent(init: seq<Event>, last: Event)
    ensures var run := init + [last];
            run[|init|] == last && forall i :: 0 <= i < |init| ==> run[i] == init[i]
  {
  }

  /** The call that returned `h` was to open this path as a file. */
  ghost predicate OpenedAs(run: seq<Event>, h: string, path: string) {
    exists i :: 0 <= i < |run| && run[i].call == Open(path, true) && run[i].reply == Handle(h)
  }

  ghost predicate OpenedDirAs(run: seq<Event>, h: string, path: string) {
    exists i :: 0 <= i < |run| && run[i].call == OpenDir(path, true) && run[i].reply == Handle(h)
  }

  /** At every point of a run a handle stands for the path it was opened with. */
  lemma {:induction false} HandlesKeepPaths(run: seq<Event>, h: string)
    requires Genuine(run)
    ensures var s := StateAfter(run);
            && (h in s.files ==> OpenedAs(run, h, s.files[h]))
            && (h in s.dirs ==> OpenedDirAs(run, h, s.dirs[h].path))
  {
    if run != [] {
      var n := |run| - 1;
      var init, last := run[..n], run[n];
      assert run == init + [last];
      HandlesKeepPaths(init, h);
      AnyEvent(init, last);
      var before, after := StateAfter(init), StateAfter(run);
      if h in after.files && !(h in before.files && after.files[h] == before.files[h]) {
        assert run[n].call == Open(after.files[h], true) && run[n].reply == Handle(h);
      }
      if h in after.dirs && !(h in before.dirs && after.dirs[h].path == before.dirs[h].path) {
        assert run[n].call == OpenDir(after.dirs[h].path, true) && run[n].reply == Handle(h);
      }
    }
  }

  /** At no time is a handle in both tables. */
  lemma TablesAreDisjoint(run: seq<Event>)
    requires Genuine(run) && Allocations(run) < U64_LIMIT
    ensures StateAfter(run).files.Keys !! StateAfter(run).dirs.Keys
  {
    forall h ensures !(h in StateAfter(run).files && h in StateAfter(run).dirs) {
      TablesAlwaysMatch(run, h);
    }
  }

  /** Closing a handle succeeds exactly when it has been returned and not been
      closed: once for every handle. */
  lemma CloseSucceedsOnce(run: seq<Event>, i: nat, h: string)
    requires Genuine(run) && Allocations(run) < U64_LIMIT
    requires i < |run| && run[i].call == Close(h)
    ensures run[i].reply == Ok <==> Returned(run[..i], h) && !Closed(run[..i], h)
    ensures run[i].reply == Ok ==> forall j :: i < j < |run| && run[j].call == Close(h) ==> run[j].reply != Ok
  {
    CloseReply(run, i, h);
    forall j | i < j < |run| && run[j].call == Close(h) && run[i].reply == Ok ensures run[j].reply != Ok {
      CloseReply(run, j, h);
      assert run[..j][i] == run[i];
    }
  }

  lemma CloseReply(run: seq<Event>, i: nat, h: string)
    requires Genuine(run) && Allocations(run) < U64_LIMIT
    requires i < |run| && run[i].call == Close(h)
    ensures run[i].reply == Ok <==> Returned(run[..i], h) && !Closed(run[..i], h)
  {
    GenuinePrefix(run, i);
    AllocationsGrow(run, i);
    TablesAlwaysMatch(run[..i], h);
    ReturnedIsEither(run[..i], h);
  }

  lemma ReturnedIsEither(run: seq<Event>, h: string)
    requires Genuine(run)
    ensures Returned(run, h) <==> ReturnedFile(run, h) || ReturnedDir(run, h)
  {
    if i :| 0 <= i < |run| && run[i].reply == Handle(h) {
      GenuinePrefix(run, i);
      assert run[i].call.Open? || run[i].call.OpenDir?;
    }
  }

  /** A directory is listed exactly when its handle is open and has not been
      listed before: at most once for every handle. */
  lemma ReadDirListsOnce(run: seq<Event>, i: nat, h: string)
    requires Genuine(run) && Allocations(run) < U64_LIMIT
    requires i < |run| && run[i].call.ReadDir? && run[i].call.handle == h
    ensures run[i].reply == Names
            <==> run[i].call.succeeds && ReturnedDir(run[..i], h) && !Closed(run[..i], h) && !Listed(run[..i], h)
  {
    GenuinePrefix(run, i);
    AllocationsGrow(run, i);
    TablesAlwaysMatch(run[..i], h);
  }

  /** A read that does not fail itself is answered with its data, or with the
      end of the file, exactly while its file is open. */
  lemma ReadNeedsOpenFile(run: seq<Event>, i: nat, h: string)
    requires Genuine(run) && Allocations(run) < U64_LIMIT
    requires i < |run| && run[i].call.Read? && run[i].call.handle == h && run[i].call.count.Some?
    ensures var n := run[i].call.count.value;
            if ReturnedFile(run[..i], h) && !Closed(run[..i], h) then run[i].reply == (if n == 0 then Eof else Data(n))
            else run[i].reply == Failed
  {
    GenuinePrefix(run, i);
    AllocationsGrow(run, i);
    TablesAlwaysMatch(run[..i], h);
  }
}
