/** The tool registry and command-line resolution (src/trade_trace/contracts/tool_registry.py,
    src/trade_trace/cli.py). */
module ToolRegistry {
  import opened Outcomes
  import opened Orders
  import opened Text

  /** Where a tool came from and went to. */
  datatype Lineage = Lineage(
    legacyName: Option<string>, renamedTo: Option<string>, removedIn: Option<string>, redirect: Option<string>)

  datatype Registration = Registration(
    name: string, invocation: seq<string>, handler: string, description: string, isWrite: bool,
    visibility: string, isAdmin: bool, lineage: Lineage)

  datatype RegistryError =
    | DuplicateName(name: string)
    | EmptyName
    | Collision(prior: string, name: string)
    | UnknownTool(name: string)

  /** `cli_invocation_for`. */
  function InvocationFor(name: string): seq<string> {
    Split(name, DOT)
  }

  /** No two names map to one invocation, and an invocation gives its name back. */
  lemma InvocationInjective(a: string, b: string)
    ensures Join(InvocationFor(a), DOT) == a
    ensures InvocationFor(a) == InvocationFor(b) <==> a == b
  {
    JoinOfSplit(a, DOT);
    JoinOfSplit(b, DOT);
  }

  // ---- the list of names ----

  /** Each key once, in order. */
  ghost predicate IsSortedNames(names: seq<string>, keys: set<string>) {
    (forall i, j :: 0 <= i < j < |names| ==> StrLt(names[i], names[j])) && forall n :: n in names <==> n in keys
  }

  /** So there is only one such list. */
  lemma {:induction false} SortedNamesUnique(a: seq<string>, b: seq<string>, keys: set<string>)
    requires IsSortedNames(a, keys) && IsSortedNames(b, keys)
    ensures a == b
    decreases |a|
  {
    assert a != [] ==> a[0] in b;
    assert b != [] ==> b[0] in a;
    if a != [] && b != [] {
      var i :| 0 <= i < |b| && b[i] == a[0];
      var j :| 0 <= j < |a| && a[j] == b[0];
      StrAsymmetric(a[0], b[0]);
      assert a[0] == b[0];
      DropFirst(a, keys);
      DropFirst(b, keys);
      SortedNamesUnique(a[1..], b[1..], keys - {a[0]});
      assert a == [a[0]] + a[1..] && b == [b[0]] + b[1..];
    }
  }

  lemma DropFirst(a: seq<string>, keys: set<string>)
    requires a != [] && IsSortedNames(a, keys)
    ensures IsSortedNames(a[1..], keys - {a[0]})
  {
    StrAsymmetric(a[0], a[0]);
    assert a == [a[0]] + a[1..];
    forall n ensures n in a[1..] <==> n in keys - {a[0]} {
      if n in a[1..] {
        var i :| 1 <= i < |a| && a[i] == n;
      }
    }
  }

  /** `sorted(keys)`. */
  method SortedNames(keys: set<string>) returns (names: seq<string>)
    ensures IsSortedNames(names, keys)
  {
    var listed: seq<string> := [];
    var todo := keys;
    while todo != {}
      invariant todo <= keys && Distinct(listed)
      invariant forall n :: n in listed <==> n in keys - todo
      decreases |todo|
    {
      var n :| n in todo;
      DistinctSnoc(listed, n);
      listed, todo := listed + [n], todo - {n};
    }
    SortedDistinct(listed, keys);
    return SortBy(listed, StrLeq);
  }

  lemma SortedDistinct(listed: seq<string>, keys: set<string>)
    requires Distinct(listed) && forall n :: n in listed <==> n in keys
    ensures IsSortedNames(SortBy(listed, StrLeq), keys)
  {
    var names := SortBy(listed, StrLeq);
    StrLeqOrder();
    SortBySorts(listed, StrLeq);
    SameMembers(names, listed);
    DistinctPermutes(listed, names);
    forall i, j | 0 <= i < j < |names| ensures StrLt(names[i], names[j]) {
      assert StrLeq(names[i], names[j]) && names[i] != names[j];
    }
  }

  // ---- the registry ----

  /** `given`, or what was there before. */
  function Given<T>(given: Option<T>, before: Option<T>): Option<T> {
    if given.Some? then given else before
  }

  function Marked(reg: Registration, visibility: Option<string>, isAdmin: Option<bool>, lineage: Lineage): Registration {
    reg.(visibility := if visibility.Some? then visibility.value else reg.visibility,
         isAdmin := if isAdmin.Some? then isAdmin.value else reg.isAdmin,
         lineage := Lineage(Given(lineage.legacyName, reg.lineage.legacyName), Given(lineage.renamedTo, reg.lineage.renamedTo),
                            Given(lineage.removedIn, reg.lineage.removedIn), Given(lineage.redirect, reg.lineage.redirect)))
  }

  /** Marking takes what is given and leaves the rest. */
  lemma MarkTakesTheGiven(reg: Registration, visibility: Option<string>, isAdmin: Option<bool>, lineage: Lineage)
    ensures var m := Marked(reg, visibility, isAdmin, lineage);
            && m.name == reg.name && m.invocation == reg.invocation && m.handler == reg.handler
            && m.description == reg.description && m.isWrite == reg.isWrite
            && (visibility.Some? ==> m.visibility == visibility.value) && (visibility.None? ==> m.visibility == reg.visibility)
            && (isAdmin.Some? ==> m.isAdmin == isAdmin.value) && (isAdmin.None? ==> m.isAdmin == reg.isAdmin)
            && m.lineage.legacyName == (if lineage.legacyName.Some? then lineage.legacyName else reg.lineage.legacyName)
            && m.lineage.renamedTo == (if lineage.renamedTo.Some? then lineage.renamedTo else reg.lineage.renamedTo)
            && m.lineage.removedIn == (if lineage.removedIn.Some? then lineage.removedIn else reg.lineage.removedIn)
            && m.lineage.redirect == (if lineage.redirect.Some? then lineage.redirect else reg.lineage.redirect)
  {
  }

  class Registry {
    var byName: map<string, Registration>
    var byCli: map<seq<string>, string>
    var cache: Option<seq<string>>

    /** `byCli` is exactly the split-name inverse of `byName`, and a cached list is right. */
    ghost predicate Valid()
      reads this
    {
      && (forall n :: n in byName ==> n != "" && byName[n].name == n && byName[n].invocation == InvocationFor(n))
      && (forall n :: n in byName ==> InvocationFor(n) in byCli && byCli[InvocationFor(n)] == n)
      && (forall inv :: inv in byCli ==> byCli[inv] in byName && InvocationFor(byCli[inv]) == inv)
      && (cache.Some? ==> IsSortedNames(cache.value, byName.Keys))
    }

    constructor ()
      ensures Valid() && byName == map[]
    {
      byName, byCli, cache := map[], map[], None;
    }

    /** Registration fails only for a name that is taken or empty: the collision check never
        fires. */
    method Register(name: string, handler: string, description: string, isWrite: bool, visibility: string,
                    isAdmin: bool, lineage: Lineage) returns (r: Result<(), RegistryError>)
      requires Valid()
      modifies this
      ensures Valid()
      ensures r.Ok? <==> old(name !in byName) && name != ""
      ensures r.Ok? ==> byName == old(byName)[name := Registration(name, InvocationFor(name), handler, description,
                                                                   isWrite, visibility, isAdmin, lineage)]
      ensures r.Err? ==> byName == old(byName) && byCli == old(byCli) && cache == old(cache)
      ensures r.Err? ==> !r.error.Collision?
    {
      if name in byName {
        return Err(DuplicateName(name));
      }
      if name == "" {
        return Err(EmptyName);
      }
      var invocation := InvocationFor(name);
      var prior := if invocation in byCli then Some(byCli[invocation]) else None;
      if prior.Some? && prior.value != name {
        InvocationInjective(prior.value, name);
        assert false;
      }
      forall n | n in byName ensures InvocationFor(n) != invocation {
        InvocationInjective(n, name);
      }
      byName := byName[name := Registration(name, invocation, handler, description, isWrite, visibility, isAdmin, lineage)];
      byCli := byCli[invocation := name];
      cache := None;
      return Ok(());
    }

    /** Catalogue metadata of a registered tool; what is not given stays. */
    method Mark(name: string, visibility: Option<string>, isAdmin: Option<bool>, lineage: Lineage)
      returns (r: Result<(), RegistryError>)
      requires Valid()
      modifies this
      ensures Valid() && byCli == old(byCli)
      ensures r.Ok? <==> old(name in byName)
      ensures r.Ok? ==> byName == old(byName)[name := Marked(old(byName)[name], visibility, isAdmin, lineage)]
      ensures r.Err? ==> byName == old(byName) && cache == old(cache)
    {
      if name !in byName {
        return Err(UnknownTool(name));
      }
      byName := byName[name := Marked(byName[name], visibility, isAdmin, lineage)];
      cache := None;
      return Ok(());
    }

    /** A new public name for an existing handler. */
    method Alias(newName: string, existingName: string, description: Option<string>, visibility: string, isAdmin: Option<bool>,
                 legacyName: Option<string>)
      returns (r: Result<(), RegistryError>)
      requires Valid()
      modifies this
      ensures Valid()
      ensures r.Ok? <==> old(existingName in byName && newName !in byName) && newName != ""
      ensures r.Ok? ==>
                var e := old(byName)[existingName];
                byName == old(byName)[newName := Registration(
                  newName, InvocationFor(newName), e.handler, if description.Some? then description.value else e.description,
                  e.isWrite, visibility, if isAdmin.Some? then isAdmin.value else e.isAdmin, Lineage(legacyName, None, None, None))]
      ensures r.Err? ==> byName == old(byName) && byCli == old(byCli)
    {
      if existingName !in byName {
        return Err(UnknownTool(existingName));
      }
      var e := byName[existingName];
      r := Register(newName, e.handler, if description.Some? then description.value else e.description, e.isWrite, visibility,
                    if isAdmin.Some? then isAdmin.value else e.isAdmin, Lineage(legacyName, None, None, None));
    }

    /** The cached list of names is always the sorted list of keys. */
    method Names() returns (names: seq<string>)
      requires Valid()
      modifies this`cache
      ensures Valid() && IsSortedNames(names, byName.Keys)
    {
      if cache.None? {
        var sorted := SortedNames(byName.Keys);
        cache := Some(sorted);
      }
      return cache.value;
    }

    /** `validate`: collisions found by walking the registrations once. */
    method Validate() returns (collisions: seq<(string, string)>)
      ensures collisions == [] <==> NoCollision(byName.Values)
      ensures Valid() ==> collisions == []
    {
      collisions := FindCollisions(byName.Values);
      if Valid() {
        forall a, b | a in byName.Values && b in byName.Values && a.invocation == b.invocation ensures a.name == b.name {
          InvocationInjective(a.name, b.name);
        }
      }
    }

    /** `_invocation_from_args`: the registered tool with the longest invocation that starts the
        tokens, or `None`. */
    method InvocationFromArgs(tokens: seq<string>) returns (r: Option<(string, seq<string>)>)
      requires Valid()
      ensures r.None? <==> forall n :: n in byName ==> !(InvocationFor(n) <= tokens)
      ensures r.Some? ==> r.value.0 in byName && InvocationFor(r.value.0) + r.value.1 == tokens
      ensures r.Some? ==> forall n :: n in byName && InvocationFor(n) <= tokens ==> |InvocationFor(n)| <= |InvocationFor(r.value.0)|
    {
      var longest := LongestPrefix(tokens, byCli.Keys);
      if longest == [] {
        forall n | n in byName ensures !(InvocationFor(n) <= tokens) {
          assert InvocationFor(n) in byCli.Keys;
        }
        return None;
      }
      InvocationInjective(byCli[longest], byCli[longest]);
      return Some((Join(longest, DOT), tokens[|longest|..]));
    }
  }

  /** The loop over the registered invocations. */
  method LongestPrefix(tokens: seq<string>, candidates: set<seq<string>>) returns (longest: seq<string>)
    ensures longest == [] || (longest in candidates && longest <= tokens)
    ensures forall c :: c in candidates && c <= tokens ==> |c| <= |longest|
  {
    longest := [];
    var todo := candidates;
    while todo != {}
      invariant todo <= candidates
      invariant longest == [] || (longest in candidates && longest <= tokens)
      invariant forall c :: c in candidates - todo && c <= tokens ==> |c| <= |longest|
      decreases |todo|
    {
      var candidate :| candidate in todo;
      todo := todo - {candidate};
      if |candidate| <= |tokens| && tokens[..|candidate|] == candidate && |candidate| > |longest| {
        longest := candidate;
      }
    }
  }

  ghost predicate NoCollision(regs: set<Registration>) {
    forall a, b :: a in regs && b in regs && a.invocation == b.invocation ==> a.name == b.name
  }

  method FindCollisions(regs: set<Registration>) returns (collisions: seq<(string, string)>)
    ensures collisions == [] <==> NoCollision(regs)
  {
    var seen: map<seq<string>, string> := map[];
    ghost var firsts: map<seq<string>, Registration> := map[];
    ghost var walked: set<Registration> := {};
    var todo := regs;
    collisions := [];
    while todo != {}
      invariant todo <= regs && walked == regs - todo
      invariant Walked(seen, firsts, walked, collisions)
      decreases |todo|
    {
      var reg :| reg in todo;
      ghost var was := Progress(seen, firsts, collisions);
      if reg.invocation in seen && seen[reg.invocation] != reg.name {
        collisions := collisions + [(seen[reg.invocation], reg.name)];
      } else {
        firsts := if reg.invocation in seen then firsts else firsts[reg.invocation := reg];
        seen := seen[reg.invocation := reg.name];
      }
      WalkOne(was, walked, reg, Progress(seen, firsts, collisions));
      walked, todo := walked + {reg}, todo - {reg};
    }
    assert walked == regs;
    AgreeIff(seen, firsts, walked);
  }

  datatype Progress = Progress(
    seen: map<seq<string>, string>, firsts: map<seq<string>, Registration>, collisions: seq<(string, string)>)

  ghost predicate Walked(seen: map<seq<string>, string>, firsts: map<seq<string>, Registration>, walked: set<Registration>,
                         collisions: seq<(string, string)>)
  {
    Witnessed(seen, firsts, walked) && (collisions == [] <==> Agree(seen, walked))
  }

  /** One registration more. */
  lemma WalkOne(was: Progress, walked: set<Registration>, reg: Registration, now: Progress)
    requires Walked(was.seen, was.firsts, walked, was.collisions)
    requires reg.invocation in was.seen && was.seen[reg.invocation] != reg.name ==>
               now.seen == was.seen && now.firsts == was.firsts && now.collisions != []
    requires !(reg.invocation in was.seen && was.seen[reg.invocation] != reg.name) ==>
               && now.seen == was.seen[reg.invocation := reg.name] && now.collisions == was.collisions
               && now.firsts == if reg.invocation in was.seen then was.firsts else was.firsts[reg.invocation := reg]
    ensures Walked(now.seen, now.firsts, walked + {reg}, now.collisions)
  {
    if reg.invocation in was.seen {
      if was.seen[reg.invocation] == reg.name {
        assert now.seen == was.seen;
      }
    } else {
      AgreeExtends(was.seen, walked, reg);
    }
  }

  /** Each invocation seen was entered by a registration already walked. */
  ghost predicate Witnessed(seen: map<seq<string>, string>, firsts: map<seq<string>, Registration>, walked: set<Registration>) {
    && seen.Keys == firsts.Keys
    && (forall inv :: inv in firsts ==> firsts[inv] in walked && firsts[inv].invocation == inv && firsts[inv].name == seen[inv])
    && (forall reg :: reg in walked ==> reg.invocation in seen)
  }

  ghost predicate Agree(seen: map<seq<string>, string>, walked: set<Registration>) {
    forall reg :: reg in walked ==> reg.invocation in seen && seen[reg.invocation] == reg.name
  }

  lemma AgreeExtends(seen: map<seq<string>, string>, walked: set<Registration>, reg: Registration)
    requires reg.invocation !in seen && forall r :: r in walked ==> r.invocation in seen
    ensures Agree(seen[reg.invocation := reg.name], walked + {reg}) <==> Agree(seen, walked)
  {
    var after := seen[reg.invocation := reg.name];
    assert forall r :: r in walked ==> after[r.invocation] == seen[r.invocation];
    if Agree(after, walked + {reg}) {
      forall r | r in walked ensures seen[r.invocation] == r.name {
        assert r in walked + {reg};
      }
    }
  }

  lemma AgreeIff(seen: map<seq<string>, string>, firsts: map<seq<string>, Registration>, walked: set<Registration>)
    requires Witnessed(seen, firsts, walked)
    ensures Agree(seen, walked) <==> NoCollision(walked)
  {
    if NoCollision(walked) {
      forall reg | reg in walked ensures seen[reg.invocation] == reg.name {
        assert firsts[reg.invocation] in walked;
      }
    }
  }

  /** At most one registered tool has the longest invocation, so resolution is determined. */
  lemma ResolutionUnique(a: string, b: string, tokens: seq<string>)
    requires InvocationFor(a) <= tokens && InvocationFor(b) <= tokens && |InvocationFor(a)| == |InvocationFor(b)|
    ensures a == b
  {
    InvocationInjective(a, b);
    assert InvocationFor(a) == tokens[..|InvocationFor(a)|] == InvocationFor(b);
  }
}
