/** Placing filter rules in a chain (insert_entry of netconf_linux.c): the verdict on a packet
    does not depend on the order in which the rules were added. */
module Firewall {

  // The filter targets; the logging ones end in a drop or an accept too.
  datatype Target = Drop | Accept | LogDrop | LogAccept

  // The packets a rule matches; a blank rule, a default policy, has no match at all and takes every packet.
  datatype Rule = Rule(target: Target, hits: set<nat>, blank: bool)

  predicate Drops(r: Rule) { r.target.Drop? || r.target.LogDrop? }

  predicate Matches(r: Rule, packet: nat) { r.blank || packet in r.hits }

  datatype Verdict = Dropped | Accepted | Undecided

  function Action(r: Rule): Verdict { if Drops(r) then Dropped else Accepted }

  // First match decides; a packet that no rule takes is left to the policy of the chain.
  function Evaluate(rules: seq<Rule>, packet: nat): Verdict {
    if rules == [] then Undecided
    else if Matches(rules[0], packet) then Action(rules[0])
    else Evaluate(rules[1..], packet)
  }

  // ---- the shape of a chain

  function Rank(r: Rule): nat { if r.blank then 2 else if Drops(r) then 0 else 1 }

  // Drops, then accepts, then default policies.
  ghost predicate Shaped(rules: seq<Rule>) { forall i, j :: 0 <= i < j < |rules| ==> Rank(rules[i]) <= Rank(rules[j]) }

  function Defaults(rules: seq<Rule>): seq<Rule> {
    if rules == [] then [] else (if rules[0].blank then [rules[0]] else []) + Defaults(rules[1..])
  }

  function LastResort(rules: seq<Rule>): Verdict {
    if Defaults(rules) == [] then Undecided else Action(Defaults(rules)[0])
  }

  ghost predicate SomeDrop(rules: seq<Rule>, packet: nat) {
    exists r :: r in rules && !r.blank && Drops(r) && Matches(r, packet)
  }

  ghost predicate SomeAccept(rules: seq<Rule>, packet: nat) {
    exists r :: r in rules && !r.blank && !Drops(r) && Matches(r, packet)
  }

  // What the rules decide when read as a set, with only the earliest default policy singled out.
  ghost function Intended(rules: seq<Rule>, packet: nat): Verdict {
    if SomeDrop(rules, packet) then Dropped
    else if SomeAccept(rules, packet) then Accepted
    else LastResort(rules)
  }

  // In a chain of this shape first match finds what is intended.
  lemma {:induction false} ShapeDecides(rules: seq<Rule>, packet: nat)
    requires Shaped(rules)
    ensures Evaluate(rules, packet) == Intended(rules, packet)
  {
    if rules != [] {
      var r, rest := rules[0], rules[1..];
      assert forall x :: x in rules <==> x == r || x in rest;
      if !Matches(r, packet) {
        assert SomeDrop(rules, packet) <==> SomeDrop(rest, packet);
        assert SomeAccept(rules, packet) <==> SomeAccept(rest, packet);
        ShapeDecides(rest, packet);
      } else if r.blank || !Drops(r) {
        NoneBefore(rules, packet);
      }
    }
  }

  // Behind a default there are only defaults; behind an accept no drop.
  lemma NoneBefore(rules: seq<Rule>, packet: nat)
    requires rules != [] && Shaped(rules) && Rank(rules[0]) > 0
    ensures !SomeDrop(rules, packet) && (rules[0].blank ==> !SomeAccept(rules, packet))
  {
    forall r | r in rules
      ensures Rank(r) >= Rank(rules[0])
    {
      var i :| 0 <= i < |rules| && rules[i] == r;
      assert i == 0 || Rank(rules[0]) <= Rank(rules[i]);
    }
  }

  // ---- placing a rule

  // How many rules at the front are drops and not default policies.
  function LeadingDrops(rules: seq<Rule>): (n: nat)
    ensures n <= |rules| && (forall i :: 0 <= i < n ==> Rank(rules[i]) == 0) && (n < |rules| ==> Rank(rules[n]) > 0)
  {
    if rules == [] || Rank(rules[0]) > 0 then 0 else 1 + LeadingDrops(rules[1..])
  }

  function Placed(rules: seq<Rule>, e: Rule): seq<Rule> {
    if e.blank then rules + [e]
    else if Drops(e) then [e] + rules
    else var k := LeadingDrops(rules); rules[..k] + [e] + rules[k..]
  }

  // Where the rule goes: nothing in front of it ranks higher, nothing behind it lower.
  lemma Where(rules: seq<Rule>, e: Rule) returns (k: nat)
    ensures k <= |rules| && (e.blank ==> k == |rules|) && Placed(rules, e) == rules[..k] + [e] + rules[k..]
    ensures Shaped(rules) ==> (forall i :: 0 <= i < k ==> Rank(rules[i]) <= Rank(e)) && forall i :: k <= i < |rules| ==> Rank(e) <= Rank(rules[i])
  {
    k := if e.blank then |rules| else if Drops(e) then 0 else LeadingDrops(rules);
    if k < |rules| && Shaped(rules) {
      assert forall i :: k < i < |rules| ==> Rank(rules[k]) <= Rank(rules[i]);
    }
  }

  lemma InsertedShape(rules: seq<Rule>, e: Rule, k: nat)
    requires Shaped(rules) && k <= |rules|
    requires (forall i :: 0 <= i < k ==> Rank(rules[i]) <= Rank(e)) && forall i :: k <= i < |rules| ==> Rank(e) <= Rank(rules[i])
    ensures Shaped(rules[..k] + [e] + rules[k..])
  {
    hide Rank;
    var after := rules[..k] + [e] + rules[k..];
    forall i, j | 0 <= i < j < |after|
      ensures Rank(after[i]) <= Rank(after[j])
    {
      assert after[i] == if i < k then rules[i] else if i == k then e else rules[i - 1];
      assert after[j] == if j < k then rules[j] else if j == k then e else rules[j - 1];
    }
  }

  lemma PlacedShape(rules: seq<Rule>, e: Rule)
    requires Shaped(rules)
    ensures Shaped(Placed(rules, e))
  {
    hide *;
    var k := Where(rules, e);
    InsertedShape(rules, e, k);
  }

  lemma {:induction false} DefaultsConcat(a: seq<Rule>, b: seq<Rule>)
    ensures Defaults(a + b) == Defaults(a) + Defaults(b)
  {
    if a == [] {
      assert a + b == b;
    } else {
      assert (a + b)[0] == a[0] && (a + b)[1..] == a[1..] + b;
      DefaultsConcat(a[1..], b);
      var own := if a[0].blank then [a[0]] else [];
      assert Defaults(a + b) == own + (Defaults(a[1..]) + Defaults(b));
      assert own + (Defaults(a[1..]) + Defaults(b)) == own + Defaults(a[1..]) + Defaults(b);
    }
  }

  // Nothing is lost or gained, and default policies keep the order in which they came.
  lemma PlacedHolds(rules: seq<Rule>, e: Rule)
    ensures forall r :: r in Placed(rules, e) <==> r in rules || r == e
    ensures |Placed(rules, e)| == |rules| + 1
    ensures Defaults(Placed(rules, e)) == Defaults(rules) + Defaults([e])
  {
    hide *;
    var k := Where(rules, e);
    var a, b := rules[..k], rules[k..];
    assert rules == a + b;
    DefaultsConcat(a, b);
    DefaultsConcat(a + [e], b);
    DefaultsConcat(a, [e]);
    OneDefault(e);
    if e.blank { assert b == []; }
    assert Defaults(a) + [] + Defaults(b) == Defaults(a) + Defaults(b) + [];
  }

  lemma OneDefault(e: Rule)
    ensures Defaults([e]) == (if e.blank then [e] else []) && Defaults([]) == []
  {
    assert [e][1..] == [];
  }

  // ---- chains over time

  datatype Op = Add(rule: Rule) | Delete(num: nat)

  function Removed(rules: seq<Rule>, num: nat): seq<Rule> {
    if num < |rules| then rules[..num] + rules[num + 1..] else rules
  }

  function Run(ops: seq<Op>): seq<Rule> {
    if ops == [] then []
    else
      var before := Run(ops[..|ops| - 1]);
      match ops[|ops| - 1]
      case Add(e) => Placed(before, e)
      case Delete(num) => Removed(before, num)
  }

  lemma {:induction false} RunShaped(ops: seq<Op>)
    ensures Shaped(Run(ops))
  {
    hide Placed, Rank;
    if ops != [] {
      var before := Run(ops[..|ops| - 1]);
      RunShaped(ops[..|ops| - 1]);
      match ops[|ops| - 1] {
        case Add(e) => PlacedShape(before, e);
        case Delete(num) =>
      }
    }
  }

  // After any run of additions and deletions first match gives a drop if any drop matches, else an
  // accept if any accept matches, else the earliest default.
  lemma RunDecides(ops: seq<Op>, packet: nat)
    ensures Evaluate(Run(ops), packet) == Intended(Run(ops), packet)
  {
    hide *;
    RunShaped(ops);
    ShapeDecides(Run(ops), packet);
  }

  function Additions(rules: seq<Rule>): (ops: seq<Op>)
    ensures |ops| == |rules| && forall i :: 0 <= i < |ops| ==> ops[i] == Add(rules[i])
  {
    seq(|rules|, i requires 0 <= i < |rules| => Add(rules[i]))
  }

  lemma {:induction false} RunHolds(rules: seq<Rule>)
    ensures forall r :: r in Run(Additions(rules)) <==> r in rules
    ensures Defaults(Run(Additions(rules))) == Defaults(rules)
  {
    hide Placed, Defaults;
    var ops := Additions(rules);
    if rules == [] {
      assert Run(ops) == [];
    } else {
      var n := |rules| - 1;
      var e := rules[n];
      assert ops[..n] == Additions(rules[..n]);
      RunHolds(rules[..n]);
      PlacedHolds(Run(ops[..n]), e);
      assert rules == rules[..n] + [e];
      DefaultsConcat(rules[..n], [e]);
    }
  }

  // Two orders of adding the same rules decide a packet alike if and only if some rule that is not a
  // default takes it, or the earliest defaults decide alike.
  lemma OrderMatters(rules: seq<Rule>, others: seq<Rule>, packet: nat)
    requires forall r: Rule :: !r.blank ==> (r in rules <==> r in others)
    ensures Evaluate(Run(Additions(rules)), packet) == Evaluate(Run(Additions(others)), packet)
       <==> SomeDrop(rules, packet) || SomeAccept(rules, packet) || LastResort(rules) == LastResort(others)
  {
    hide Run, Evaluate, Defaults, Additions, Drops, Matches;
    RunDecides(Additions(rules), packet);
    RunDecides(Additions(others), packet);
    RunHolds(rules);
    RunHolds(others);
  }

  // The default policies do matter: swapping two of them changes the verdict.
  lemma DefaultOrderMatters(packet: nat)
    ensures var drop, accept := Rule(Drop, {}, true), Rule(Accept, {}, true);
            Evaluate(Placed(Placed([], drop), accept), packet) != Evaluate(Placed(Placed([], accept), drop), packet)
  {
  }

  class Chain {
    var rules: seq<Rule>

    constructor ()
      ensures rules == []
    {
      rules := [];
    }

    // insert_entry
    method InsertEntry(e: Rule)
      modifies this
      ensures rules == Placed(old(rules), e)
    {
      if e.blank {
        rules := rules + [e];
      } else if Drops(e) {
        rules := [e] + rules;
      } else {
        var i := 0;
        assert rules[0..] == rules;
        while i < |rules|
          invariant i <= |rules| && LeadingDrops(rules) == i + LeadingDrops(rules[i..])
        {
          if !Drops(rules[i]) || rules[i].blank { break; }
          assert rules[i..][1..] == rules[i + 1..];
          i := i + 1;
        }
        rules := rules[..i] + [e] + rules[i..];
      }
    }

    // iptc_delete_num_entry as netconf_del_fw calls it: no such rule is an error.
    method DeleteEntry(num: nat) returns (ok: bool)
      modifies this
      ensures ok == (num < |old(rules)|) && rules == Removed(old(rules), num)
    {
      ok := num < |rules|;
      if ok { rules := rules[..num] + rules[num + 1..]; }
    }
  }
}
