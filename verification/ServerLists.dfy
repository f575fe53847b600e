/** Reloading the nameservers (network.c): list cells are moved between lists by relinking at
    the head, cells of old servers are reused for new ones, and two reversals have to cancel. */
module ServerLists {
  import opened Options
  import opened Forwarding
  import opened ForwardingSafety
  import opened ForwardingExact

  function Reversed<T>(s: seq<T>): (r: seq<T>)
    ensures |r| == |s| && forall i :: 0 <= i < |s| ==> r[i] == s[|s| - 1 - i]
  {
    seq(|s|, i requires 0 <= i < |s| => s[|s| - 1 - i])
  }

  // The cells whose server came from the command line, or from the resolv file, in list order.
  function Cells(list: seq<nat>, mem: map<nat, Server>, fromResolv: bool): seq<nat> {
    if list == [] then []
    else
      var n := |list| - 1;
      Cells(list[..n], mem, fromResolv) + if Info(mem, list[n]).fromResolv == fromResolv then [list[n]] else []
  }

  // A nameserver line of the resolv file.
  datatype Line = Line(addr: nat, v4: bool)

  function FromLine(l: Line): Server { Server(l.addr, l.v4, None, true, false, false) }

  // A server of the file takes every query without a domain that can be sent, at the address of its line.
  lemma LineServes(list: seq<nat>, mem: map<nat, Server>, i: nat, l: Line, domain: Option<string>, sends: seq<bool>)
    requires i < |list| && sends != [] && Info(mem, list[i]) == FromLine(l)
    ensures TakesAt(list, mem, domain, i, 0, sends) <==> domain.None? && sends[0]
    ensures Info(mem, list[i]).addr == l.addr && Info(mem, list[i]).v4 == l.v4
  {
  }

  function Servers(list: seq<nat>, mem: map<nat, Server>): (r: seq<Server>)
    ensures |r| == |list| && forall i :: 0 <= i < |list| ==> r[i] == Info(mem, list[i])
  {
    seq(|list|, i requires 0 <= i < |list| => Info(mem, list[i]))
  }

  function FromLines(file: seq<Line>): (r: seq<Server>)
    ensures |r| == |file| && forall i :: 0 <= i < |file| ==> r[i] == FromLine(file[i])
  {
    seq(|file|, i requires 0 <= i < |file| => FromLine(file[i]))
  }

  predicate Distinct(s: seq<nat>) { forall i, j :: 0 <= i < j < |s| ==> s[i] != s[j] }

  // Which servers check_servers throws away.
  datatype Net = Net(has4: bool, has6: bool, local: set<nat>)

  predicate Usable(s: Server, net: Net) {
    s.noAddr || s.literal || ((if s.v4 then net.has4 else net.has6) && s.addr !in net.local)
  }

  function UsableCells(list: seq<nat>, mem: map<nat, Server>, net: Net): seq<nat> {
    if list == [] then []
    else
      var n := |list| - 1;
      UsableCells(list[..n], mem, net) + if Usable(Info(mem, list[n]), net) then [list[n]] else []
  }

  function UsableOf(ss: seq<Server>, net: Net): seq<Server> {
    if ss == [] then []
    else
      var n := |ss| - 1;
      UsableOf(ss[..n], net) + if Usable(ss[n], net) then [ss[n]] else []
  }

  // ---- the two loops of reload_servers

  method Split(list: seq<nat>, mem: map<nat, Server>) returns (spare: seq<nat>, kept: seq<nat>)
    ensures spare == Reversed(Cells(list, mem, true)) && kept == Reversed(Cells(list, mem, false))
  {
    spare, kept := [], [];
    for i := 0 to |list|
      invariant spare == Reversed(Cells(list[..i], mem, true)) && kept == Reversed(Cells(list[..i], mem, false))
    {
      assert list[..i + 1][..i] == list[..i];
      ReversedSnoc(Cells(list[..i], mem, true), list[i]);
      ReversedSnoc(Cells(list[..i], mem, false), list[i]);
      if Info(mem, list[i]).fromResolv {
        spare := [list[i]] + spare;
      } else {
        kept := [list[i]] + kept;
      }
      assert Cells(list[..i], mem, true) + [] == Cells(list[..i], mem, true);
      assert Cells(list[..i], mem, false) + [] == Cells(list[..i], mem, false);
    }
    assert list[..|list|] == list;
  }

  // The lines that get a cell: the first ones reuse the cells of old servers, and after that a line
  // is heard if malloc works for it.
  function Heard(file: seq<Line>, ok: seq<bool>, spares: nat): (r: seq<Line>)
    requires |file| <= |ok|
  {
    if file == [] then []
    else
      var n := |file| - 1;
      var r := Heard(file[..n], ok, spares);
      if |r| < spares || ok[n] then r + [file[n]] else r
  }

  /** reload_servers. ok[i] is whether malloc would work for line i, `heap` the cells it returns one
      after the other. The lines that are heard each get a cell of their own. */
  method ReloadServers(list: seq<nat>, mem: map<nat, Server>, file: seq<Line>, ok: seq<bool>, heap: seq<nat>)
    returns (out: seq<nat>, info: map<nat, Server>, ghost used: seq<nat>)
    requires ListOk(list, mem) && |ok| == |file| <= |heap| && Distinct(heap) && forall i :: 0 <= i < |heap| ==> heap[i] !in list
    ensures out == Reversed(used) + Reversed(Cells(list, mem, false))
    ensures Servers(used, info) == FromLines(Heard(file, ok, |Cells(list, mem, true)|))
    ensures forall p :: p in Cells(list, mem, false) ==> p in info && info[p] == Info(mem, p)
    ensures ListOk(out, info)
  {
    hide ListOk, Cells, Distinct, Filled, Servers, FromLines, Heard, Reversed, Reloading;
    var spare, kept := Split(list, mem);
    var more := heap;
    ghost var pool, n, heard: seq<Line> := spare + more, |Cells(list, mem, true)|, [];
    ListDistinct(list, mem);
    PoolFacts(list, mem, heap, pool);
    NothingFilled(mem, file, ok, n);
    used, out, info := [], kept, mem;
    ReloadStart(mem, pool, n, kept, spare, more);
    var i := 0;
    while i < |file|
      invariant 0 <= i <= |file| && heard == Heard(file[..i], ok, n) && |more| >= |file| - i
      invariant Reloading(mem, pool, n, kept, used, spare, more, out, info, heard)
    {
      HeardNext(file, ok, n, i);
      ReloadCount(mem, pool, n, kept, used, spare, more, out, info, heard);
      if spare != [] || ok[i] {
        var cell := if spare != [] then spare[0] else more[0];
        ReloadStep(mem, pool, n, kept, used, spare, more, out, info, heard, cell, file[i]);
        if spare != [] {
          spare := spare[1..];
        } else {
          more := more[1..];
        }
        out := [cell] + out;
        info := info[cell := FromLine(file[i])];
        used, heard := used + [cell], heard + [file[i]];
      }
      i := i + 1;
    }
    assert file[..|file|] == file;
    ReloadFacts(mem, pool, n, kept, used, spare, more, out, info, heard);
    ReloadEnd(list, mem, pool, used, spare, more, info, heard);
  }

  // The cells taken so far hold the lines heard so far, in front of the servers that stay; nothing else has changed.
  ghost predicate Reloading(mem: map<nat, Server>, pool: seq<nat>, n: nat, kept: seq<nat>, used: seq<nat>, spare: seq<nat>, more: seq<nat>,
                            out: seq<nat>, info: map<nat, Server>, heard: seq<Line>) {
    && pool == used + spare + more && |heard| == |used| && out == Reversed(used) + kept && Filled(used, info, heard)
    && (spare != [] ==> |used| + |spare| == n) && (spare == [] ==> |used| >= n)
    && forall p :: p in mem ==> p in info && (p !in used ==> info[p] == mem[p])
  }

  lemma ReloadStart(mem: map<nat, Server>, pool: seq<nat>, n: nat, kept: seq<nat>, spare: seq<nat>, more: seq<nat>)
    requires pool == spare + more && |spare| == n
    ensures Reloading(mem, pool, n, kept, [], spare, more, kept, mem, [])
  {
    assert Reversed<nat>([]) + kept == kept && [] + spare + more == pool;
  }

  lemma ReloadCount(mem: map<nat, Server>, pool: seq<nat>, n: nat, kept: seq<nat>, used: seq<nat>, spare: seq<nat>, more: seq<nat>,
                    out: seq<nat>, info: map<nat, Server>, heard: seq<Line>)
    requires Reloading(mem, pool, n, kept, used, spare, more, out, info, heard)
    ensures spare != [] <==> |heard| < n
  {
    hide Filled, Reversed;
  }

  lemma ReloadFacts(mem: map<nat, Server>, pool: seq<nat>, n: nat, kept: seq<nat>, used: seq<nat>, spare: seq<nat>, more: seq<nat>,
                    out: seq<nat>, info: map<nat, Server>, heard: seq<Line>)
    requires Reloading(mem, pool, n, kept, used, spare, more, out, info, heard)
    ensures pool == used + spare + more && out == Reversed(used) + kept && Filled(used, info, heard)
    ensures forall p :: p in mem ==> p in info && (p !in used ==> info[p] == mem[p])
  {
    hide Filled, Reversed;
  }

  lemma ReloadStep(mem: map<nat, Server>, pool: seq<nat>, n: nat, kept: seq<nat>, used: seq<nat>, spare: seq<nat>, more: seq<nat>,
                   out: seq<nat>, info: map<nat, Server>, heard: seq<Line>, cell: nat, line: Line)
    requires Distinct(pool) && Reloading(mem, pool, n, kept, used, spare, more, out, info, heard)
    requires (spare != [] && cell == spare[0]) || (spare == [] && more != [] && cell == more[0])
    ensures Reloading(mem, pool, n, kept, used + [cell], if spare != [] then spare[1..] else spare, if spare != [] then more else more[1..],
                      [cell] + out, info[cell := FromLine(line)], heard + [line])
  {
    hide Filled, Reversed, Distinct, FromLine;
    NextCell(pool, used, spare, more, cell, info, heard, line);
    ReversedSnoc(used, cell);
    assert [cell] + (Reversed(used) + kept) == ([cell] + Reversed(used)) + kept;
  }

  // With memory for all of them, or enough old cells, every line is heard.
  lemma {:induction false} AllHeard(file: seq<Line>, ok: seq<bool>, spares: nat)
    requires |file| <= |ok| && (|file| <= spares || forall i :: spares <= i < |file| ==> ok[i])
    ensures Heard(file, ok, spares) == file
  {
    if file != [] {
      var n := |file| - 1;
      AllHeard(file[..n], ok, spares);
      assert file == file[..n] + [file[n]];
    }
  }

  lemma HeardNext(file: seq<Line>, ok: seq<bool>, spares: nat, i: nat)
    requires i < |file| <= |ok|
    ensures var r := Heard(file[..i], ok, spares);
            Heard(file[..i + 1], ok, spares) == if |r| < spares || ok[i] then r + [file[i]] else r
  {
    assert file[..i + 1][..i] == file[..i];
  }

  lemma ListDistinct(list: seq<nat>, mem: map<nat, Server>)
    requires ListOk(list, mem)
    ensures Distinct(list)
  {
  }

  lemma NothingFilled(info: map<nat, Server>, file: seq<Line>, ok: seq<bool>, spares: nat)
    requires |file| <= |ok|
    ensures Filled([], info, []) && Heard(file[..0], ok, spares) == [] && Reversed<nat>([]) == []
  {
  }

  // The cells used so far hold the servers of the lines heard.
  ghost predicate Filled(used: seq<nat>, info: map<nat, Server>, file: seq<Line>) {
    |used| == |file| && forall k :: 0 <= k < |used| ==> used[k] in info && info[used[k]] == FromLine(file[k])
  }

  lemma ReversedSnoc<T>(s: seq<T>, x: T)
    ensures Reversed(s + [x]) == [x] + Reversed(s)
  {
  }

  lemma {:induction false} ReversedFacts(s: seq<nat>)
    requires Distinct(s)
    ensures Distinct(Reversed(s)) && forall p :: p in Reversed(s) <==> p in s
  {
    forall p | p in s ensures p in Reversed(s) {
      var i :| 0 <= i < |s| && s[i] == p;
      assert Reversed(s)[|s| - 1 - i] == p;
    }
  }

  lemma {:induction false} CellsFacts(list: seq<nat>, mem: map<nat, Server>, b: bool)
    requires Distinct(list)
    ensures Distinct(Cells(list, mem, b))
    ensures forall p :: p in Cells(list, mem, b) <==> p in list && Info(mem, p).fromResolv == b
  {
    if list != [] {
      var n := |list| - 1;
      CellsFacts(list[..n], mem, b);
      assert list == list[..n] + [list[n]] && list[n] !in list[..n];
    }
  }

  lemma {:induction false} PoolFacts(list: seq<nat>, mem: map<nat, Server>, heap: seq<nat>, pool: seq<nat>)
    requires Distinct(list) && Distinct(heap) && (forall i :: 0 <= i < |heap| ==> heap[i] !in list)
    requires pool == Reversed(Cells(list, mem, true)) + heap
    ensures Distinct(pool) && |pool| == |Cells(list, mem, true)| + |heap|
    ensures forall p :: p in Cells(list, mem, false) ==> p in list && p !in pool
  {
    CellsFacts(list, mem, true);
    CellsFacts(list, mem, false);
    ReversedFacts(Cells(list, mem, true));
  }

  lemma {:induction false} NextCell(pool: seq<nat>, used: seq<nat>, spare: seq<nat>, more: seq<nat>, cell: nat,
                                    info: map<nat, Server>, heard: seq<Line>, line: Line)
    requires Distinct(pool) && pool == used + spare + more && Filled(used, info, heard)
    requires (spare != [] && cell == spare[0]) || (spare == [] && more != [] && cell == more[0])
    ensures pool == (used + [cell]) + (if spare != [] then spare[1..] else []) + (if spare != [] then more else more[1..])
    ensures Filled(used + [cell], info[cell := FromLine(line)], heard + [line])
  {
    assert pool[|used|] == cell;
    forall k | 0 <= k < |used| ensures used[k] != cell { assert pool[k] == used[k]; }
  }

  lemma {:induction false} ReloadEnd(list: seq<nat>, mem: map<nat, Server>, pool: seq<nat>,
                                     used: seq<nat>, spare: seq<nat>, more: seq<nat>, info: map<nat, Server>, heard: seq<Line>)
    requires ListOk(list, mem) && Distinct(pool) && pool == used + spare + more && Filled(used, info, heard)
    requires forall p :: p in Cells(list, mem, false) ==> p in list && p !in pool
    requires forall p :: p in mem ==> p in info && (p !in used ==> info[p] == mem[p])
    ensures Servers(used, info) == FromLines(heard)
    ensures forall p :: p in Cells(list, mem, false) ==> p in info && info[p] == Info(mem, p)
    ensures ListOk(Reversed(used) + Reversed(Cells(list, mem, false)), info)
  {
    var kept := Cells(list, mem, false);
    assert forall k :: 0 <= k < |used| ==> pool[k] == used[k];
    assert Distinct(used);
    CellsFacts(list, mem, false);
    ReversedFacts(used);
    ReversedFacts(kept);
    assert forall p :: p in used ==> p in pool;
    forall p | p in kept ensures p in info && info[p] == Info(mem, p) && p !in used {
      assert p in list && p in mem;
    }
    var out := Reversed(used) + Reversed(kept);
    forall i | 0 <= i < |out| ensures out[i] in info { assert out[i] in used || out[i] in kept; }
  }

  // ---- check_servers

  method CheckServers(list: seq<nat>, mem: map<nat, Server>, net: Net) returns (out: seq<nat>)
    ensures out == Reversed(UsableCells(list, mem, net))
  {
    out := [];
    for i := 0 to |list|
      invariant out == Reversed(UsableCells(list[..i], mem, net))
    {
      assert list[..i + 1][..i] == list[..i];
      ReversedSnoc(UsableCells(list[..i], mem, net), list[i]);
      assert UsableCells(list[..i], mem, net) + [] == UsableCells(list[..i], mem, net);
      var s := Info(mem, list[i]);
      if !s.noAddr && !s.literal && s.v4 && !net.has4 {
      } else if !s.noAddr && !s.literal && !s.v4 && !net.has6 {
      } else if !s.noAddr && !s.literal && s.addr in net.local {
      } else {
        out := [list[i]] + out;
      }
    }
    assert list[..|list|] == list;
  }

  lemma ReversedConcat<T>(a: seq<T>, b: seq<T>)
    ensures Reversed(a + b) == Reversed(b) + Reversed(a)
    ensures Reversed(Reversed(a)) == a
  {
  }

  lemma {:induction false} UsableConcat(a: seq<nat>, b: seq<nat>, mem: map<nat, Server>, net: Net)
    ensures UsableCells(a + b, mem, net) == UsableCells(a, mem, net) + UsableCells(b, mem, net)
  {
    if b == [] {
      assert a + b == a && UsableCells(a, mem, net) + [] == UsableCells(a, mem, net);
    } else {
      var i, x := b[..|b| - 1], b[|b| - 1];
      UsableConcat(a, i, mem, net);
      assert a + b == (a + i) + [x];
      UsableSnoc(a + i, x, mem, net);
      var u, v := UsableCells(a, mem, net), UsableCells(i, mem, net);
      assert (u + v) + [x] == u + (v + [x]);
      assert b == i + [x];
      UsableSnoc(i, x, mem, net);
    }
  }

  lemma {:induction false} UsableSnoc(a: seq<nat>, x: nat, mem: map<nat, Server>, net: Net)
    ensures UsableCells(a + [x], mem, net) == if Usable(Info(mem, x), net) then UsableCells(a, mem, net) + [x] else UsableCells(a, mem, net)
  {
    assert (a + [x])[..|a|] == a;
    assert UsableCells(a, mem, net) + [] == UsableCells(a, mem, net);
  }

  lemma {:induction false} UsableReversed(s: seq<nat>, mem: map<nat, Server>, net: Net)
    ensures UsableCells(Reversed(s), mem, net) == Reversed(UsableCells(s, mem, net))
  {
    if s == [] {
      assert Reversed(s) == [];
    } else {
      var i, x := s[..|s| - 1], s[|s| - 1];
      UsableReversed(i, mem, net);
      assert s == i + [x];
      ReversedSnoc(i, x);
      UsableConcat([x], Reversed(i), mem, net);
      UsableOne(x, mem, net);
      if Usable(Info(mem, x), net) { ReversedSnoc(UsableCells(i, mem, net), x); }
    }
  }

  lemma UsableOne(x: nat, mem: map<nat, Server>, net: Net)
    ensures UsableCells([x], mem, net) == if Usable(Info(mem, x), net) then [x] else []
  {
    assert [x][..0] == [];
  }

  lemma {:induction false} UsableServers(list: seq<nat>, mem: map<nat, Server>, net: Net)
    ensures Servers(UsableCells(list, mem, net), mem) == UsableOf(Servers(list, mem), net)
  {
    if list != [] {
      var n := |list| - 1;
      UsableServers(list[..n], mem, net);
      assert Servers(list, mem)[..n] == Servers(list[..n], mem);
    }
  }

  /** A reload restores the order: whatever reversals and cell reuse happened, the new list holds
      the usable command-line servers in their old order, then the usable servers of the lines heard
      in file order, all in distinct cells. */
  method Reload(list: seq<nat>, mem: map<nat, Server>, file: seq<Line>, ok: seq<bool>, heap: seq<nat>, net: Net)
    returns (out: seq<nat>, info: map<nat, Server>)
    requires ListOk(list, mem) && |ok| == |file| <= |heap| && Distinct(heap) && forall i :: 0 <= i < |heap| ==> heap[i] !in list
    ensures ListOk(out, info)
    ensures Servers(out, info) ==
              UsableOf(Servers(Cells(list, mem, false), mem), net)
              + UsableOf(FromLines(Heard(file, ok, |Cells(list, mem, true)|)), net)
    ensures Servers(Cells(out, info, false), info) == UsableOf(Servers(Cells(list, mem, false), mem), net)
  {
    hide ListOk, UsableCells, UsableOf, Cells, Distinct, Heard;
    var mid;
    ghost var used;
    mid, info, used := ReloadServers(list, mem, file, ok, heap);
    out := CheckServers(mid, info, net);
    ReloadOrder(Cells(list, mem, false), used, mem, info, net);
    UsableOk(mid, info, net);
    StaysIs(list, mem, out, info, UsableOf(FromLines(Heard(file, ok, |Cells(list, mem, true)|)), net), net);
    LinesGo(Heard(file, ok, |Cells(list, mem, true)|), net);
  }

  // The servers that the next reload keeps.
  function Lasting(ss: seq<Server>): seq<Server> {
    if ss == [] then [] else Lasting(ss[..|ss| - 1]) + if ss[|ss| - 1].fromResolv then [] else [ss[|ss| - 1]]
  }

  lemma {:induction false} CellsLast(list: seq<nat>, mem: map<nat, Server>)
    ensures Servers(Cells(list, mem, false), mem) == Lasting(Servers(list, mem))
  {
    if list != [] {
      var n := |list| - 1;
      CellsLast(list[..n], mem);
      assert Servers(list, mem)[..n] == Servers(list[..n], mem);
    }
  }

  lemma {:induction false} LastingConcat(a: seq<Server>, b: seq<Server>)
    ensures Lasting(a + b) == Lasting(a) + Lasting(b)
  {
    if b == [] {
      assert a + b == a;
    } else {
      var n := |b| - 1;
      LastingConcat(a, b[..n]);
      assert (a + b)[..|a + b| - 1] == a + b[..n];
    }
  }

  lemma {:induction false} LastingUsable(ss: seq<Server>, net: Net)
    ensures Lasting(UsableOf(ss, net)) == UsableOf(Lasting(ss), net)
  {
    hide Usable;
    if ss != [] {
      var n := |ss| - 1;
      LastingUsable(ss[..n], net);
      var u, l := UsableOf(ss[..n], net), Lasting(ss[..n]);
      LastingConcat(u, [ss[n]]);
      assert [ss[n]][..0] == [];
      assert (l + [ss[n]])[..|l|] == l;
      assert u + [] == u && l + [] == l;
    }
  }

  lemma {:induction false} LastingTwice(ss: seq<Server>)
    ensures Lasting(Lasting(ss)) == Lasting(ss)
  {
    if ss != [] {
      var n := |ss| - 1;
      var l := Lasting(ss[..n]);
      LastingTwice(ss[..n]);
      assert (l + [ss[n]])[..|l|] == l;
      assert l + [] == l;
    }
  }

  lemma {:induction false} LinesGo(file: seq<Line>, net: Net)
    ensures Lasting(UsableOf(FromLines(file), net)) == []
  {
    hide Usable;
    if file != [] {
      var n := |file| - 1;
      LinesGo(file[..n], net);
      assert FromLines(file)[..n] == FromLines(file[..n]);
      var u := UsableOf(FromLines(file[..n]), net);
      LastingConcat(u, [FromLine(file[n])]);
      assert [FromLine(file[n])][..0] == [];
      assert u + [] == u;
    }
  }

  lemma StaysIs(list: seq<nat>, mem: map<nat, Server>, out: seq<nat>, info: map<nat, Server>, lines: seq<Server>, net: Net)
    requires Servers(out, info) == UsableOf(Servers(Cells(list, mem, false), mem), net) + lines
    ensures Lasting(lines) == [] ==> Servers(Cells(out, info, false), info) == UsableOf(Servers(Cells(list, mem, false), mem), net)
  {
    hide UsableOf, Cells, Lasting;
    var kept := Servers(Cells(list, mem, false), mem);
    CellsLast(out, info);
    CellsLast(list, mem);
    LastingConcat(UsableOf(kept, net), lines);
    LastingUsable(kept, net);
    LastingTwice(Servers(list, mem));
    assert UsableOf(kept, net) + [] == UsableOf(kept, net);
  }

  // The reversal of check_servers undoes the one of reload_servers.
  lemma {:induction false} ReloadOrder(kept: seq<nat>, used: seq<nat>, mem: map<nat, Server>, info: map<nat, Server>, net: Net)
    requires forall p :: p in kept ==> p in info && info[p] == Info(mem, p)
    ensures Servers(Reversed(UsableCells(Reversed(used) + Reversed(kept), info, net)), info)
         == UsableOf(Servers(kept, mem), net) + UsableOf(Servers(used, info), net)
  {
    hide UsableCells, UsableOf, Reversed;
    ReversedConcat(kept, used);
    UsableReversed(kept + used, info, net);
    ReversedConcat(UsableCells(kept + used, info, net), []);
    UsableConcat(kept, used, info, net);
    UsableServers(kept, info, net);
    UsableServers(used, info, net);
    assert Servers(kept, info) == Servers(kept, mem);
    var a, b := UsableCells(kept, info, net), UsableCells(used, info, net);
    assert Servers(a + b, info) == Servers(a, info) + Servers(b, info);
  }

  // Dropping cells and turning the list round keeps it well formed.
  lemma {:induction false} UsableOk(list: seq<nat>, mem: map<nat, Server>, net: Net)
    requires ListOk(list, mem)
    ensures ListOk(Reversed(UsableCells(list, mem, net)), mem)
  {
    UsableFacts(list, mem, net);
    ReversedFacts(UsableCells(list, mem, net));
    var out := Reversed(UsableCells(list, mem, net));
    forall i | 0 <= i < |out| ensures out[i] in mem { assert out[i] in UsableCells(list, mem, net); }
  }

  lemma {:induction false} UsableFacts(list: seq<nat>, mem: map<nat, Server>, net: Net)
    requires Distinct(list)
    ensures Distinct(UsableCells(list, mem, net)) && forall p :: p in UsableCells(list, mem, net) ==> p in list
  {
    if list != [] {
      var n := |list| - 1;
      UsableFacts(list[..n], mem, net);
      assert list == list[..n] + [list[n]] && list[n] !in list[..n];
    }
  }
}
