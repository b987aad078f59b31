/** The loop that serves the output of child processes, and its line buffers (e2lib.lua, le2lib.c). */
module PollLoop {
  import opened Base

  /** A file descriptor under control: `calls` is what its callback got so far, `input` is what was
      read from it. */
  datatype FdCt = FdCt(writefunc: bool, linebuffer: bool, rfd: int, buffer: string, calls: seq<string>, input: string)

  function Concat(l: seq<string>): string { if l == [] then [] else Concat(l[..|l| - 1]) + l[|l| - 1] }

  /** A line: one newline, at its end. */
  predicate IsLine(s: string) { s != [] && s[|s| - 1] == '\n' && '\n' !in s[..|s| - 1] }

  /** What the callbacks have been given and what is still in the buffer is what was read. A line
      buffer gives out lines and keeps none. */
  ghost predicate Served(f: FdCt)
  {
    && Concat(f.calls) + f.buffer == f.input
    && (if f.linebuffer then '\n' !in f.buffer && forall i :: 0 <= i < |f.calls| ==> IsLine(f.calls[i])
        else f.buffer == [])
  }

  /** When it is closed: nothing is left, and only the last piece may lack its newline. */
  ghost predicate Finished(f: FdCt)
  {
    && Concat(f.calls) == f.input && f.buffer == []
    && (f.linebuffer ==> forall i :: 0 <= i < |f.calls| - 1 ==> IsLine(f.calls[i]))
    && (f.linebuffer && f.calls != [] ==>
       IsLine(f.calls[|f.calls| - 1]) || (f.calls[|f.calls| - 1] != [] && '\n' !in f.calls[|f.calls| - 1]))
  }

  lemma ConcatOne(l: seq<string>, x: string)
    ensures Concat(l + [x]) == Concat(l) + x
  {
    assert (l + [x])[..|l|] == l;
  }

  /** string.find(s, "\n"). */
  method FindNewline(s: string) returns (r: Option<nat>)
    ensures r.Some? ==> r.value < |s| && s[r.value] == '\n' && '\n' !in s[..r.value]
    ensures r.None? ==> '\n' !in s
  {
    for i := 0 to |s|
      invariant '\n' !in s[..i]
    {
      if s[i] == '\n' { return Some(i); }
      assert s[..i + 1] == s[..i] + [s[i]];
    }
    assert s[..|s|] == s;
    r := None;
  }

  /** fd_linebuffer. */
  method LineBuffer(f0: FdCt, data: string) returns (f: FdCt)
    requires Served(f0) && f0.linebuffer
    ensures Served(f) && f == f0.(buffer := f.buffer, calls := f.calls, input := f0.input + data) && f0.calls <= f.calls
  {
    f := f0.(buffer := f0.buffer + data, input := f0.input + data);
    assert Concat(f.calls) + f.buffer == f.input;
    var linepos := FindNewline(f.buffer);
    while linepos.Some?
      invariant f == f0.(buffer := f.buffer, calls := f.calls, input := f0.input + data) && f0.calls <= f.calls
      invariant Concat(f.calls) + f.buffer == f.input && forall i :: 0 <= i < |f.calls| ==> IsLine(f.calls[i])
      invariant linepos.Some? ==>
        linepos.value < |f.buffer| && f.buffer[linepos.value] == '\n' && '\n' !in f.buffer[..linepos.value]
      invariant linepos.None? ==> '\n' !in f.buffer
      decreases if linepos.Some? then |f.buffer| + 1 else 0
    {
      var n := linepos.value + 1;
      var line, rest := f.buffer[..n], f.buffer[n..];
      assert line[..|line| - 1] == f.buffer[..linepos.value];
      ConcatOne(f.calls, line);
      assert Concat(f.calls) + f.buffer == Concat(f.calls) + line + rest;
      f := f.(calls := f.calls + [line], buffer := rest);
      linepos := FindNewline(f.buffer);
    }
  }

  /** fd_linebuffer_final. */
  method LineBufferFinal(f0: FdCt) returns (f: FdCt)
    requires Served(f0)
    ensures Finished(f) && f == f0.(buffer := f.buffer, calls := f.calls) && f0.calls <= f.calls
  {
    f := f0;
    if f.linebuffer && f.buffer != [] {
      ConcatOne(f.calls, f.buffer);
      f := f.(calls := f.calls + [f.buffer], buffer := []);
    }
    assert Concat(f.calls) + [] == Concat(f.calls);
  }

  /** The result of a read: data (empty at the end of the file), an interruption, or an error. */
  datatype Read = Data(s: string) | Interrupted | ReadError

  /** What poll says about one descriptor. */
  datatype Revents = Quiet | In(read: Read) | Out | Closed

  /** An entry of the result: a descriptor and its position, counted from 1. */
  datatype Ptab = Ptab(fd: int, fdvecpos: nat, revents: Revents)

  /** The descriptors with events among the first `n`, the last one first. */
  function Report(fds: seq<int>, revents: seq<Revents>, n: nat): seq<Ptab>
    requires |revents| == |fds| && n <= |fds|
  {
    if n == 0 then []
    else (if revents[n - 1].Quiet? then [] else [Ptab(fds[n - 1], n, revents[n - 1])]) + Report(fds, revents, n - 1)
  }

  /** poll_fd, which walks the descriptors downwards until it has seen as many events as poll
      counted. */
  method PollFd(fds: seq<int>, revents: seq<Revents>, f: nat) returns (r: seq<Ptab>)
    requires |revents| == |fds| && f == |Report(fds, revents, |fds|)|
    ensures r == Report(fds, revents, |fds|)
  {
    r := [];
    var nfds := |fds|;
    while |r| < f && nfds > 0
      invariant 0 <= nfds <= |fds| && r + Report(fds, revents, nfds) == Report(fds, revents, |fds|)
      decreases nfds
    {
      nfds := nfds - 1;
      if !revents[nfds].Quiet? {
        r := r + [Ptab(fds[nfds], nfds + 1, revents[nfds])];
      }
    }
    assert r + [] == r;
  }

  /** The descriptors that were not closed. */
  function Open(fds: seq<int>, revents: seq<Revents>): seq<int>
    requires |revents| == |fds|
  {
    if fds == [] then [] else (if revents[0].Closed? then [] else [fds[0]]) + Open(fds[1..], revents[1..])
  }

  /** One poll: an error, a timeout, or events for the descriptors. */
  datatype Round = PollError | Timeout | Ready(events: map<int, Revents>)

  function EventOf(events: map<int, Revents>, fd: int): Revents { if fd in events then events[fd] else Quiet }

  /** The events of the descriptors that are polled. */
  function EventsOf(events: map<int, Revents>, fds: seq<int>): (r: seq<Revents>)
    ensures |r| == |fds| && forall i :: 0 <= i < |fds| ==> r[i] == EventOf(events, fds[i])
  {
    seq(|fds|, i requires 0 <= i < |fds| => EventOf(events, fds[i]))
  }

  /** All that is read from a descriptor until it is closed. */
  function ReadFrom(rounds: seq<Round>, fd: int): string
  {
    if rounds == [] then []
    else
      var before, e := ReadFrom(rounds[..|rounds| - 1], fd), rounds[|rounds| - 1];
      if ClosedIn(rounds[..|rounds| - 1], fd) || !e.Ready? then before else before + DataOf(EventOf(e.events, fd))
  }

  function DataOf(e: Revents): string { if e.In? && e.read.Data? then e.read.s else [] }

  predicate ClosedIn(rounds: seq<Round>, fd: int)
  {
    exists r :: r in rounds && r.Ready? && EventOf(r.events, fd).Closed?
  }

  datatype Status = Success | Failed | Running

  /** An event the loop gives up at. */
  predicate Bad(e: Revents) { e.Out? || e == In(ReadError) }

  /** A poll the loop gives up after: nothing has an event, or something has a bad one. */
  ghost predicate GivesUp(events: map<int, Revents>, fds: seq<int>)
  {
    (forall fd :: fd in fds ==> EventOf(events, fd).Quiet?) || exists fd :: fd in fds && Bad(EventOf(events, fd))
  }

  /** How the loop ends, for the polls that `env` answers. */
  ghost function Ends(fds: seq<int>, env: seq<Round>): Status
    decreases |env|
  {
    if fds == [] then Success
    else if env == [] then Running
    else if !env[0].Ready? || GivesUp(env[0].events, fds) then Failed
    else Ends(Open(fds, EventsOf(env[0].events, fds)), env[1..])
  }

  lemma {:induction false} ReportEmpty(fds: seq<int>, ev: seq<Revents>, n: nat)
    requires |ev| == |fds| && n <= |fds|
    ensures Report(fds, ev, n) == [] <==> forall j :: 0 <= j < n ==> ev[j].Quiet?
  {
    if n > 0 { ReportEmpty(fds, ev, n - 1); }
  }

  lemma NothingReported(fds: seq<int>, events: map<int, Revents>)
    requires fds != [] && Report(fds, EventsOf(events, fds), |fds|) == []
    ensures GivesUp(events, fds)
  {
    ReportEmpty(fds, EventsOf(events, fds), |fds|);
  }

  lemma QuietIsGood()
    ensures !Bad(Quiet)
  {
  }

  lemma BadReported(fds: seq<int>, events: map<int, Revents>, n: nat)
    requires n < |fds| && Bad(EventOf(events, fds[n]))
    ensures GivesUp(events, fds)
  {
    assert fds[n] in fds;
  }

  lemma AllServed(fds: seq<int>, events: map<int, Revents>, n: nat)
    requires n <= |fds| && Report(fds, EventsOf(events, fds), n) == []
    requires Report(fds, EventsOf(events, fds), |fds|) != []
    requires forall j :: n <= j < |fds| ==> !Bad(EventOf(events, fds[j]))
    ensures !GivesUp(events, fds)
  {
    var ev := EventsOf(events, fds);
    ReportEmpty(fds, ev, n);
    ReportEmpty(fds, ev, |fds|);
    var j :| 0 <= j < |fds| && !ev[j].Quiet?;
    assert fds[j] in fds;
    forall fd | fd in fds ensures !Bad(EventOf(events, fd)) {
      var i :| 0 <= i < |fds| && fds[i] == fd;
      assert ev[i] == EventOf(events, fd);
    }
  }

  /** The state of a descriptor after some rounds. */
  ghost predicate Expected(f: FdCt, rounds: seq<Round>)
  {
    f.input == ReadFrom(rounds, f.rfd) && if ClosedIn(rounds, f.rfd) then Finished(f) else Served(f)
  }

  ghost predicate DistinctFds(fdctv: seq<FdCt>)
  {
    forall i, j :: 0 <= i < j < |fdctv| && fdctv[i].writefunc && fdctv[j].writefunc ==> fdctv[i].rfd != fdctv[j].rfd
  }

  /** Whether a descriptor has been served in this pass: those from position `n` on have. */
  ghost predicate Passed(fds: seq<int>, n: nat, fd: int) { n <= |fds| && (fd in fds ==> fd in fds[n..]) }

  ghost predicate InPass(fdctv: seq<FdCt>, fds: seq<int>, n: nat, rounds: seq<Round>, round: Round)
  {
    forall i :: 0 <= i < |fdctv| && fdctv[i].writefunc ==>
      Expected(fdctv[i], if Passed(fds, n, fdctv[i].rfd) then rounds + [round] else rounds)
  }

  /** The polled descriptors are those not closed. */
  ghost predicate Polled(fdctv: seq<FdCt>, fds: seq<int>, rounds: seq<Round>)
  {
    && Distinct(fds)
    && (forall i :: 0 <= i < |fdctv| && fdctv[i].writefunc ==>
       (fdctv[i].rfd in fds <==> !ClosedIn(rounds, fdctv[i].rfd)))
    && (forall fd :: fd in fds ==> HasFd(fdctv, fd))
  }

  predicate HasFd(fdctv: seq<FdCt>, fd: int)
  {
    exists i :: 0 <= i < |fdctv| && fdctv[i].writefunc && fdctv[i].rfd == fd
  }

  lemma ClosedMore(rounds: seq<Round>, round: Round, fd: int)
    ensures ClosedIn(rounds + [round], fd) <==>
      ClosedIn(rounds, fd) || (round.Ready? && EventOf(round.events, fd).Closed?)
  {
    assert forall r :: r in rounds + [round] <==> r in rounds || r == round;
    if ClosedIn(rounds, fd) {
      var r :| r in rounds && r.Ready? && EventOf(r.events, fd).Closed?;
      assert r in rounds + [round];
    } else if round.Ready? && EventOf(round.events, fd).Closed? {
      assert round in rounds + [round];
    }
  }

  lemma ReadMore(rounds: seq<Round>, round: Round, fd: int)
    ensures ReadFrom(rounds + [round], fd) == if ClosedIn(rounds, fd) || !round.Ready? then ReadFrom(rounds, fd)
      else ReadFrom(rounds, fd) + DataOf(EventOf(round.events, fd))
  {
    assert (rounds + [round])[..|rounds|] == rounds;
  }

  /** A descriptor that is not polled, or is quiet, stays as it is. */
  lemma Idle(f: FdCt, rounds: seq<Round>, round: Round)
    requires Expected(f, rounds) && round.Ready? && (ClosedIn(rounds, f.rfd) || EventOf(round.events, f.rfd).Quiet?)
    ensures Expected(f, rounds + [round])
  {
    ClosedMore(rounds, round, f.rfd);
    ReadMore(rounds, round, f.rfd);
  }

  /** What the loop does with a descriptor that has an event. */
  lemma Served1(f: FdCt, f': FdCt, rounds: seq<Round>, round: Round)
    requires Expected(f, rounds) && !ClosedIn(rounds, f.rfd) && round.Ready? && f'.rfd == f.rfd
    requires var e := EventOf(round.events, f.rfd);
      f'.input == f.input + DataOf(e) && if e.Closed? then Finished(f') else Served(f')
    ensures Expected(f', rounds + [round])
  {
    ClosedMore(rounds, round, f.rfd);
    ReadMore(rounds, round, f.rfd);
  }

  /** A callback without a line buffer gets the data as it is. */
  lemma CalledFn(f: FdCt, data: string)
    requires Served(f) && !f.linebuffer
    ensures Served(f.(calls := f.calls + [data], input := f.input + data))
  {
    ConcatOne(f.calls, data);
    assert f.input == Concat(f.calls);
  }

  /** Going down to the next descriptor with an event. */
  lemma {:induction false} SkipQuiet(fdctv: seq<FdCt>, fds: seq<int>, n: nat, rounds: seq<Round>,
      events: map<int, Revents>, fdvec: seq<int>)
    returns (k: nat)
    requires n <= |fds| && Distinct(fds) && DistinctFds(fdctv) && InPass(fdctv, fds, n, rounds, Ready(events))
    requires var ev := EventsOf(events, fds); fdvec == fds[..n] + Open(fds[n..], ev[n..])
    ensures k <= n && InPass(fdctv, fds, k, rounds, Ready(events)) && (k > 0 ==> !EventsOf(events, fds)[k - 1].Quiet?)
    ensures forall j :: k <= j < n ==> EventOf(events, fds[j]).Quiet?
    ensures var ev := EventsOf(events, fds);
      fdvec == fds[..k] + Open(fds[k..], ev[k..]) && Report(fds, ev, n) == Report(fds, ev, k)
    decreases n
  {
    var ev := EventsOf(events, fds);
    if n == 0 || !ev[n - 1].Quiet? {
      k := n;
    } else {
      StepDown(fds, ev, n);
      forall i | 0 <= i < |fdctv| && fdctv[i].writefunc
        ensures Expected(fdctv[i], if Passed(fds, n - 1, fdctv[i].rfd) then rounds + [Ready(events)] else rounds)
      {
        PassedStep(fds, n, fdctv[i].rfd);
        if fdctv[i].rfd == fds[n - 1] && !Passed(fds, n, fdctv[i].rfd) { Idle(fdctv[i], rounds, Ready(events)); }
      }
      k := SkipQuiet(fdctv, fds, n - 1, rounds, events, fdvec);
    }
  }

  lemma StepDown(fds: seq<int>, ev: seq<Revents>, n: nat)
    requires |ev| == |fds| && 0 < n <= |fds|
    ensures Open(fds[n - 1..], ev[n - 1..]) == (if ev[n - 1].Closed? then [] else [fds[n - 1]])
      + Open(fds[n..], ev[n..])
    ensures fds[..n] + Open(fds[n..], ev[n..]) == fds[..n - 1] + ([fds[n - 1]] + Open(fds[n..], ev[n..]))
  {
    assert fds[n - 1..][1..] == fds[n..] && ev[n - 1..][1..] == ev[n..];
  }

  lemma PassedStep(fds: seq<int>, n: nat, fd: int)
    requires 0 < n <= |fds| && Distinct(fds)
    ensures Passed(fds, n - 1, fd) <==> Passed(fds, n, fd) || fd == fds[n - 1]
    ensures fd == fds[n - 1] ==> !Passed(fds, n, fd)
  {
    assert fds[n - 1..] == [fds[n - 1]] + fds[n..];
    forall k | 0 <= k < |fds[n..]| ensures fds[n..][k] != fds[n - 1] { }
  }

  lemma AddFd(fdctv: seq<FdCt>, i: nat)
    requires DistinctFds(fdctv) && i < |fdctv|
    ensures forall fd :: HasFd(fdctv[..i + 1], fd) <==>
      HasFd(fdctv[..i], fd) || (fdctv[i].writefunc && fdctv[i].rfd == fd)
    ensures fdctv[i].writefunc ==> !HasFd(fdctv[..i], fdctv[i].rfd)
  {
    forall fd
      ensures HasFd(fdctv[..i + 1], fd) <==> HasFd(fdctv[..i], fd) || (fdctv[i].writefunc && fdctv[i].rfd == fd)
    {
      if HasFd(fdctv[..i], fd) {
        var j :| 0 <= j < i && fdctv[..i][j].writefunc && fdctv[..i][j].rfd == fd;
        assert fdctv[..i + 1][j].rfd == fd;
      } else if fdctv[i].writefunc && fdctv[i].rfd == fd {
        assert fdctv[..i + 1][i].rfd == fd;
      }
    }
  }

  /** An entry is served: the others are as they were, so the pass is one position further down. */
  lemma PassStep(fdctv: seq<FdCt>, fdctv': seq<FdCt>, at: nat, fds: seq<int>, n: nat, rounds: seq<Round>,
      events: map<int, Revents>)
    requires 0 < n <= |fds| && Distinct(fds) && DistinctFds(fdctv) && InPass(fdctv, fds, n, rounds, Ready(events))
    requires at < |fdctv| == |fdctv'| && fdctv' == fdctv[at := fdctv'[at]] && fdctv[at].writefunc
    requires fdctv[at].rfd == fds[n - 1]
    requires fdctv'[at].writefunc && fdctv'[at].rfd == fds[n - 1] && Expected(fdctv'[at], rounds + [Ready(events)])
    ensures InPass(fdctv', fds, n - 1, rounds, Ready(events)) && DistinctFds(fdctv')
  {
    hide Expected;
    forall i | 0 <= i < |fdctv'| && fdctv'[i].writefunc
      ensures Expected(fdctv'[i], if Passed(fds, n - 1, fdctv'[i].rfd) then rounds + [Ready(events)] else rounds)
    {
      PassedStep(fds, n, fdctv'[i].rfd);
      if i != at { assert fdctv'[i] == fdctv[i] && fdctv[i].rfd != fdctv[at].rfd; }
    }
  }

  /** At the end of a pass. */
  lemma PassDone(fdctv: seq<FdCt>, fds: seq<int>, rounds: seq<Round>, events: map<int, Revents>, fdvec: seq<int>)
    requires Polled(fdctv, fds, rounds) && InPass(fdctv, fds, 0, rounds, Ready(events))
    requires fdvec == Open(fds, EventsOf(events, fds))
    ensures Polled(fdctv, fdvec, rounds + [Ready(events)])
    ensures forall i :: 0 <= i < |fdctv| && fdctv[i].writefunc ==> Expected(fdctv[i], rounds + [Ready(events)])
  {
    hide Expected;
    var ev := EventsOf(events, fds);
    assert fds[0..] == fds;
    OpenIs(fds, ev, events);
    forall i | 0 <= i < |fdctv| && fdctv[i].writefunc
      ensures fdctv[i].rfd in fdvec <==> !ClosedIn(rounds + [Ready(events)], fdctv[i].rfd)
    {
      ClosedMore(rounds, Ready(events), fdctv[i].rfd);
    }
  }

  lemma PassStart(fdctv: seq<FdCt>, fds: seq<int>, rounds: seq<Round>, events: map<int, Revents>)
    requires Polled(fdctv, fds, rounds)
    requires forall i :: 0 <= i < |fdctv| && fdctv[i].writefunc ==> Expected(fdctv[i], rounds)
    ensures InPass(fdctv, fds, |fds|, rounds, Ready(events)) && Distinct(fds)
  {
    hide Expected;
    forall i | 0 <= i < |fdctv| && fdctv[i].writefunc
      ensures Expected(fdctv[i], if Passed(fds, |fds|, fdctv[i].rfd) then rounds + [Ready(events)] else rounds)
    {
      assert fds[|fds|..] == [];
      if Passed(fds, |fds|, fdctv[i].rfd) { Idle(fdctv[i], rounds, Ready(events)); }
    }
  }

  /** The descriptor at position `n` is open and has not been served in this pass. */
  lemma PolledFd(fdctv: seq<FdCt>, fds: seq<int>, n: nat, rounds: seq<Round>, events: map<int, Revents>)
    requires 0 < n <= |fds| && Polled(fdctv, fds, rounds) && InPass(fdctv, fds, n, rounds, Ready(events))
    ensures HasFd(fdctv, fds[n - 1]) && !ClosedIn(rounds, fds[n - 1])
    ensures forall i :: 0 <= i < |fdctv| && fdctv[i].writefunc && fdctv[i].rfd == fds[n - 1] ==>
      Expected(fdctv[i], rounds) && Served(fdctv[i])
  {
    hide Served, Finished;
    var fd := fds[n - 1];
    assert fd in fds;
    var j :| 0 <= j < |fdctv| && fdctv[j].writefunc && fdctv[j].rfd == fd;
    PassedStep(fds, n, fd);
  }

  lemma ServedOne(was: seq<FdCt>, now: seq<FdCt>, at: nat, fds: seq<int>, n: nat, rounds: seq<Round>,
      events: map<int, Revents>)
    requires 0 < n <= |fds| && Polled(was, fds, rounds) && DistinctFds(was)
    requires InPass(was, fds, n, rounds, Ready(events))
    requires at < |was| == |now| && now == was[at := now[at]] && was[at].writefunc && was[at].rfd == fds[n - 1]
    requires SameFd(was[at], now[at])
    requires var e := EventOf(events, fds[n - 1]);
      now[at].input == was[at].input + DataOf(e) && if e.Closed? then Finished(now[at]) else Served(now[at])
    ensures InPass(now, fds, n - 1, rounds, Ready(events)) && DistinctFds(now) && Polled(now, fds, rounds)
  {
    hide Served, Finished;
    PolledFd(was, fds, n, rounds, events);
    hide Expected, InPass;
    Served1(was[at], now[at], rounds, Ready(events));
    PassStep(was, now, at, fds, n, rounds, events);
    forall fd | fd in fds ensures HasFd(now, fd) {
      var j :| 0 <= j < |was| && was[j].writefunc && was[j].rfd == fd;
      assert now[j].writefunc && now[j].rfd == fd;
    }
  }

  /** With nothing left to poll, every descriptor was closed, in one of the rounds so far. */
  lemma AllClosed(fdctv: seq<FdCt>, fdvec: seq<int>, env: seq<Round>, k: nat, i: nat)
    requires k <= |env| && Polled(fdctv, fdvec, env[..k]) && fdvec == [] && i < |fdctv| && fdctv[i].writefunc
    requires Expected(fdctv[i], env[..k])
    ensures Finished(fdctv[i]) && fdctv[i].input == ReadFrom(env, fdctv[i].rfd)
  {
    ReadOn(env, k, fdctv[i].rfd);
  }

  lemma {:induction false} ReadOn(env: seq<Round>, k: nat, fd: int)
    requires k <= |env| && ClosedIn(env[..k], fd)
    ensures ReadFrom(env, fd) == ReadFrom(env[..k], fd)
    decreases |env|
  {
    if k == |env| {
      assert env[..k] == env;
    } else {
      var e := env[..|env| - 1];
      assert e[..k] == env[..k] && env == e + [env[|env| - 1]];
      ReadOn(e, k, fd);
      assert ClosedIn(e, fd) by {
        var r :| r in env[..k] && r.Ready? && EventOf(r.events, fd).Closed?;
        assert r in e;
      }
      ReadMore(e, env[|env| - 1], fd);
    }
  }

  lemma {:induction false} OpenIs(fds: seq<int>, ev: seq<Revents>, events: map<int, Revents>)
    requires Distinct(fds) && |ev| == |fds| && forall i :: 0 <= i < |fds| ==> ev[i] == EventOf(events, fds[i])
    ensures Distinct(Open(fds, ev)) && forall fd :: fd in Open(fds, ev) <==> fd in fds && !EventOf(events, fd).Closed?
    decreases |fds|
  {
    if fds != [] {
      OpenIs(fds[1..], ev[1..], events);
      assert fds == [fds[0]] + fds[1..];
      assert fds[0] !in fds[1..] by { forall k | 0 <= k < |fds[1..]| ensures fds[1..][k] != fds[0] { } }
    }
  }

  /** Where a pass stands: the descriptors after position `n` have been served, and those of them
      that were closed are gone. */
  ghost predicate PassState(orig: seq<FdCt>, fdctv: seq<FdCt>, fds: seq<int>, n: nat, rounds: seq<Round>,
      events: map<int, Revents>, fdvec: seq<int>)
  {
    && n <= |fds| && DistinctFds(fdctv) && Polled(fdctv, fds, rounds) && InPass(fdctv, fds, n, rounds, Ready(events))
    && fdvec == fds[..n] + Open(fds[n..], EventsOf(events, fds)[n..])
    && |fdctv| == |orig| && forall i :: 0 <= i < |fdctv| ==> SameFd(orig[i], fdctv[i])
  }

  lemma PassFirst(fdctv: seq<FdCt>, fds: seq<int>, rounds: seq<Round>, events: map<int, Revents>)
    requires DistinctFds(fdctv) && Polled(fdctv, fds, rounds)
    requires forall i :: 0 <= i < |fdctv| && fdctv[i].writefunc ==> Expected(fdctv[i], rounds)
    ensures PassState(fdctv, fdctv, fds, |fds|, rounds, events, fds)
  {
    PassStart(fdctv, fds, rounds, events);
    hide Expected, InPass, Polled;
    assert fds[|fds|..] == [] && fds[..|fds|] + [] == fds;
  }

  lemma PassNext(orig: seq<FdCt>, fdctv: seq<FdCt>, fds: seq<int>, n: nat, rounds: seq<Round>,
      events: map<int, Revents>, fdvec: seq<int>, t: Ptab, rest: seq<Ptab>)
    returns (k: nat)
    requires PassState(orig, fdctv, fds, n, rounds, events, fdvec)
    requires [t] + rest == Report(fds, EventsOf(events, fds), n)
    ensures 0 < k <= n && PassState(orig, fdctv, fds, k, rounds, events, fdvec)
    ensures forall j :: k <= j < n ==> EventOf(events, fds[j]).Quiet?
    ensures t == Ptab(fds[k - 1], k, EventOf(events, fds[k - 1])) && !t.revents.Quiet?
    ensures rest == Report(fds, EventsOf(events, fds), k - 1) && k <= |fdvec|
    ensures HasFd(fdctv, t.fd)
    ensures forall i :: 0 <= i < |fdctv| && fdctv[i].writefunc && fdctv[i].rfd == t.fd ==> Served(fdctv[i])
  {
    hide Expected, InPass, Served;
    k := SkipQuiet(fdctv, fds, n, rounds, events, fdvec);
    var ev := EventsOf(events, fds);
    var all := [t] + rest;
    assert all == [Ptab(fds[k - 1], k, ev[k - 1])] + Report(fds, ev, k - 1);
    assert all[0] == t && all[1..] == rest && all[1..] == Report(fds, ev, k - 1);
    PolledFd(fdctv, fds, k, rounds, events);
  }

  lemma PassServed(orig: seq<FdCt>, was: seq<FdCt>, now: seq<FdCt>, at: nat, fds: seq<int>, n: nat, rounds: seq<Round>,
      events: map<int, Revents>, vec: seq<int>, vec': seq<int>)
    requires 0 < n && PassState(orig, was, fds, n, rounds, events, vec)
    requires at < |was| == |now| && now == was[at := now[at]] && was[at].writefunc && was[at].rfd == fds[n - 1]
    requires SameFd(was[at], now[at])
    requires var e := EventOf(events, fds[n - 1]);
      now[at].input == was[at].input + DataOf(e) && if e.Closed? then Finished(now[at]) else Served(now[at])
    requires vec' == if EventOf(events, fds[n - 1]).Closed? then vec[..n - 1] + vec[n..] else vec
    ensures PassState(orig, now, fds, n - 1, rounds, events, vec')
  {
    hide Expected, InPass, Polled, DistinctFds, Finished, Served, Open;
    ServedOne(was, now, at, fds, n, rounds, events);
    VecStep(fds, EventsOf(events, fds), n, vec, vec');
  }

  /** A closed descriptor leaves the vector at its position. */
  lemma VecStep(fds: seq<int>, ev: seq<Revents>, n: nat, vec: seq<int>, vec': seq<int>)
    requires |ev| == |fds| && 0 < n <= |fds| && vec == fds[..n] + Open(fds[n..], ev[n..])
    requires vec' == if ev[n - 1].Closed? then vec[..n - 1] + vec[n..] else vec
    ensures vec' == fds[..n - 1] + Open(fds[n - 1..], ev[n - 1..])
  {
    hide Open;
    StepDown(fds, ev, n);
    var open := Open(fds[n..], ev[n..]);
    assert vec[..n - 1] == fds[..n - 1] && vec[n..] == open;
  }

  lemma PassLast(orig: seq<FdCt>, fdctv: seq<FdCt>, fds: seq<int>, n: nat, rounds: seq<Round>,
      events: map<int, Revents>, fdvec: seq<int>)
    requires PassState(orig, fdctv, fds, n, rounds, events, fdvec) && Report(fds, EventsOf(events, fds), n) == []
    ensures DistinctFds(fdctv) && Polled(fdctv, fdvec, rounds + [Ready(events)])
    ensures fdvec == Open(fds, EventsOf(events, fds))
    ensures |fdctv| == |orig| && forall i :: 0 <= i < |fdctv| ==> SameFd(orig[i], fdctv[i])
    ensures forall i :: 0 <= i < |fdctv| && fdctv[i].writefunc ==> Expected(fdctv[i], rounds + [Ready(events)])
  {
    hide Expected, InPass;
    var k := SkipQuiet(fdctv, fds, n, rounds, events, fdvec);
    assert k == 0;
    var ev := EventsOf(events, fds);
    assert fds[0..] == fds && ev[0..] == ev && fds[..0] + Open(fds, ev) == Open(fds, ev);
    PassDone(fdctv, fds, rounds, events, fdvec);
  }

  class Poller {
    var fdctv: seq<FdCt>
    var fdvec: seq<int>

    constructor (fdctv: seq<FdCt>)
      requires DistinctFds(fdctv)
      requires forall i :: 0 <= i < |fdctv| ==> fdctv[i].buffer == [] && fdctv[i].calls == [] && fdctv[i].input == []
      ensures this.fdctv == fdctv && Valid([])
    {
      this.fdctv := fdctv;
      var fds := [];
      for i := 0 to |fdctv|
        invariant Distinct(fds) && forall fd :: fd in fds <==> HasFd(fdctv[..i], fd)
      {
        AddFd(fdctv, i);
        if fdctv[i].writefunc { fds := fds + [fdctv[i].rfd]; }
      }
      assert fdctv[..|fdctv|] == fdctv;
      fdvec := fds;
    }

    ghost predicate Valid(rounds: seq<Round>)
      reads this
    {
      && DistinctFds(fdctv) && Polled(fdctv, fdvec, rounds)
      && forall i :: 0 <= i < |fdctv| && fdctv[i].writefunc ==> Expected(fdctv[i], rounds)
    }

    /** fd_find_writefunc_by_readfd. */
    method FindWritefunc(fd: int) returns (r: Option<nat>)
      ensures r.Some? ==> r.value < |fdctv| && fdctv[r.value].writefunc && fdctv[r.value].rfd == fd
      ensures r.None? ==> !HasFd(fdctv, fd)
    {
      for i := 0 to |fdctv|
        invariant forall j :: 0 <= j < i ==> !(fdctv[j].writefunc && fdctv[j].rfd == fd)
      {
        if fdctv[i].writefunc && fdctv[i].rfd == fd { return Some(i); }
      }
      r := None;
    }

    /** One entry of the result of poll. */
    method Serve(t: Ptab) returns (ok: bool, ghost at: nat)
      requires HasFd(fdctv, t.fd) && !t.revents.Quiet? && 1 <= t.fdvecpos <= |fdvec|
      requires forall i :: 0 <= i < |fdctv| && fdctv[i].writefunc && fdctv[i].rfd == t.fd ==> Served(fdctv[i])
      modifies this
      ensures ok ==> at < |fdctv| == |old(fdctv)| && old(fdctv)[at].writefunc && old(fdctv)[at].rfd == t.fd
      ensures ok ==> fdctv == old(fdctv)[at := fdctv[at]] && fdctv[at].writefunc && fdctv[at].rfd == t.fd
      ensures ok ==> fdctv[at].input == old(fdctv)[at].input + DataOf(t.revents) && SameFd(old(fdctv)[at], fdctv[at])
      ensures ok ==> if t.revents.Closed? then Finished(fdctv[at]) else Served(fdctv[at])
      ensures ok ==> fdvec == if t.revents.Closed? then old(fdvec)[..t.fdvecpos - 1] + old(fdvec)[t.fdvecpos..]
        else old(fdvec)
      ensures ok <==> !Bad(t.revents)
    {
      hide Finished, Served;
      ok := true;
      var i := FindWritefunc(t.fd);
      at := i.value;
      var f := fdctv[i.value];
      assert f.input + [] == f.input;
      if t.revents.In? {
        if t.revents.read.ReadError? { return false, 0; }
        if t.revents.read.Data? && t.revents.read.s != [] {
          var data := t.revents.read.s;
          if f.linebuffer {
            f := LineBuffer(f, data);
          } else {
            CalledFn(f, data);
            f := f.(calls := f.calls + [data], input := f.input + data);
          }
          fdctv := fdctv[i.value := f];
        }
      } else if t.revents.Out? {
        return false, 0;
      } else {
        f := LineBufferFinal(f);
        fdctv := fdctv[i.value := f];
        fdvec := fdvec[..t.fdvecpos - 1] + fdvec[t.fdvecpos..];
      }
    }

    /** One pass over the result of poll. */
    method Pass(events: map<int, Revents>, ghost rounds: seq<Round>) returns (ok: bool)
      requires Valid(rounds) && fdvec != []
      modifies this
      ensures ok <==> !GivesUp(events, old(fdvec))
      ensures ok ==> fdvec == Open(old(fdvec), EventsOf(events, old(fdvec)))
      ensures ok ==> Valid(rounds + [Ready(events)]) && |fdctv| == |old(fdctv)|
      ensures ok ==> forall i :: 0 <= i < |fdctv| ==> SameFd(old(fdctv)[i], fdctv[i])
    {
      hide PassState, Report, DistinctFds, Polled, Expected, GivesUp, Bad, Open;
      var ev := EventsOf(events, fdvec);
      ghost var fds := fdvec;
      var pollvec := PollFd(fdvec, ev, |Report(fdvec, ev, |fdvec|)|);
      if |pollvec| == 0 {
        NothingReported(fds, events);
        return false;
      }
      ghost var n: nat := |fds|;
      PassFirst(fdctv, fds, rounds, events);
      assert pollvec[0..] == pollvec;
      for k := 0 to |pollvec|
        invariant n <= |fds| && pollvec[k..] == Report(fds, ev, n)
        invariant PassState(old(fdctv), fdctv, fds, n, rounds, events, fdvec)
        invariant forall j :: n <= j < |fds| ==> !Bad(EventOf(events, fds[j]))
      {
        var t := pollvec[k];
        QuietIsGood();
        assert pollvec[k..] == [t] + pollvec[k + 1..];
        n := PassNext(old(fdctv), fdctv, fds, n, rounds, events, fdvec, t, pollvec[k + 1..]);
        ghost var was, vec := fdctv, fdvec;
        ghost var at;
        ok, at := Serve(t);
        if !ok {
          BadReported(fds, events, n - 1);
          return;
        }
        PassServed(old(fdctv), was, fdctv, at, fds, n, rounds, events, vec, fdvec);
        n := n - 1;
      }
      PassLast(old(fdctv), fdctv, fds, n, rounds, events, fdvec);
      AllServed(fds, events, n);
      ok := true;
    }

    /** callcmd_poll, for the polls that `env` answers. */
    method Poll(env: seq<Round>) returns (r: Status)
      requires Valid([])
      modifies this
      ensures r == Ends(old(fdvec), env)
      ensures r == Success ==> fdvec == [] && |fdctv| == |old(fdctv)|
      ensures r == Success ==> forall i :: 0 <= i < |fdctv| && fdctv[i].writefunc ==>
        SameFd(old(fdctv)[i], fdctv[i]) && Finished(fdctv[i]) && fdctv[i].input == ReadFrom(env, fdctv[i].rfd)
    {
      hide Expected, Polled, Finished, GivesUp, Open;
      var k := 0;
      assert env[..0] == [] && env[0..] == env;
      while |fdvec| > 0
        invariant k <= |env| && Valid(env[..k]) && |fdctv| == |old(fdctv)|
        invariant forall i :: 0 <= i < |fdctv| ==> SameFd(old(fdctv)[i], fdctv[i])
        invariant Ends(old(fdvec), env) == Ends(fdvec, env[k..])
        decreases |env| - k
      {
        if k == |env| { return Running; }
        if !env[k].Ready? { return Failed; }
        ghost var was := fdctv;
        var ok := Pass(env[k].events, env[..k]);
        if !ok { return Failed; }
        assert env[..k + 1] == env[..k] + [env[k]] && env[k..][1..] == env[k + 1..];
        k := k + 1;
      }
      forall i | 0 <= i < |fdctv| && fdctv[i].writefunc
        ensures Finished(fdctv[i]) && fdctv[i].input == ReadFrom(env, fdctv[i].rfd)
      {
        AllClosed(fdctv, fdvec, env, k, i);
      }
      r := Success;
    }
  }

  predicate SameFd(f: FdCt, f': FdCt)
  {
    f'.rfd == f.rfd && f'.writefunc == f.writefunc && f'.linebuffer == f.linebuffer && f.calls <= f'.calls
  }
}
