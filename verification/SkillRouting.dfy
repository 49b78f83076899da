/**
  Skill routing: from the roles a task asks for, over the tools that fill them, to the packs on disk.
 */
module SkillRouting {
  import opened Prelude
  import opened Sorting

  datatype Routing = Routing(roles: seq<string>, tools: seq<string>, selected: seq<string>, missing: seq<string>,
    loadedAll: bool)

  /** The tools that fill any of the roles; an empty tool fills nothing. */
  function Filling(caps: map<string, string>, roles: set<string>): set<string> {
    set role | role in roles && role in caps && caps[role] != "" :: caps[role]
  }

  /** One entry for each listed role whose tool has no pack, in role order. */
  function Lacking(caps: map<string, string>, roles: seq<string>, have: set<string>): seq<string> {
    if roles == [] then []
    else
      var role := roles[|roles|-1];
      Lacking(caps, roles[..|roles|-1], have)
      + if role in caps && caps[role] != "" && caps[role] !in have then [caps[role]] else []
  }

  /** The routing decision, with no trace of the order in which maps are visited. */
  ghost function RouteOf(caps: map<string, string>, roles: seq<string>, available: seq<string>): Routing {
    var have := Elements(available);
    if roles == [] then
      Routing([], [], Sort(available, LexLe),
        SortedSet((set role | role in caps && caps[role] != "" && caps[role] !in have :: caps[role])), true)
    else
      var wanted := SortedSet(Elements(roles) - {""});
      var tools := Filling(caps, Elements(wanted));
      Routing(wanted, SortedSet(tools), SortedSet(tools * have), Sort(Lacking(caps, wanted, have), LexLe), false)
  }

  method DedupeSorted(xs: seq<string>) returns (out: seq<string>)
    ensures out == SortedSet(Elements(xs) - {""})
  {
    var seen: set<string> := {};
    var kept: seq<string> := [];
    var i := 0;
    while i < |xs|
      invariant 0 <= i <= |xs| && Distinct(kept)
      invariant seen == Elements(kept) == Elements(xs[..i]) - {""}
    {
      assert xs[..i+1] == xs[..i] + [xs[i]];
      assert Elements(xs[..i+1]) == Elements(xs[..i]) + {xs[i]};
      if xs[i] != "" && xs[i] !in seen {
        assert Elements(kept + [xs[i]]) == Elements(kept) + {xs[i]};
        seen := seen + {xs[i]};
        kept := kept + [xs[i]];
      }
      i := i + 1;
    }
    assert xs[..i] == xs;
    out := SortDistinctly(kept);
  }

  /** Sorting a duplicate-free list gives the sorted list of its set. */
  method SortDistinctly(xs: seq<string>) returns (out: seq<string>)
    requires Distinct(xs)
    ensures out == SortedSet(Elements(xs))
  {
    out := Sort(xs, LexLe);
    SortDistinct(xs, LexLe);
    LexOrder();
    SortSorts(xs, LexLe);
    SortedSetUnique(out, SortedSet(Elements(xs)), LexLe);
  }

  /** The declared tools that have no pack, from the map's values in any order. */
  method DeclaredWithoutPack(caps: map<string, string>, have: set<string>) returns (missing: seq<string>)
    ensures missing == SortedSet((set role | role in caps && caps[role] != "" && caps[role] !in have :: caps[role]))
  {
    var found: seq<string> := [];
    var pending := caps.Keys;
    while pending != {}
      invariant pending <= caps.Keys
      invariant Elements(found) ==
        set role | role in caps && role !in pending && caps[role] != "" && caps[role] !in have :: caps[role]
      decreases |pending|
    {
      var role :| role in pending;
      var tool := caps[role];
      if tool != "" && tool !in have {
        assert Elements(found + [tool]) == Elements(found) + {tool};
        found := found + [tool];
      }
      pending := pending - {role};
    }
    var lacking := set role | role in caps && caps[role] != "" && caps[role] !in have :: caps[role];
    missing := DedupeSorted(found);
    assert Elements(found) - {""} == lacking;
  }

  /** The tools filling the wanted roles, and those of them without a pack. */
  method Resolve(caps: map<string, string>, wanted: seq<string>, have: set<string>)
    returns (tools: set<string>, missing: seq<string>)
    ensures tools == Filling(caps, Elements(wanted)) && missing == Lacking(caps, wanted, have)
  {
    tools, missing := {}, [];
    var i := 0;
    while i < |wanted|
      invariant 0 <= i <= |wanted|
      invariant tools == Filling(caps, Elements(wanted[..i])) && missing == Lacking(caps, wanted[..i], have)
    {
      var role := wanted[i];
      assert wanted[..i+1][..i] == wanted[..i];
      assert Elements(wanted[..i+1]) == Elements(wanted[..i]) + {role};
      if role in caps && caps[role] != "" {
        tools := tools + {caps[role]};
        if caps[role] !in have {
          missing := missing + [caps[role]];
        }
      }
      i := i + 1;
    }
    assert wanted[..i] == wanted;
  }

  /** The tools, and those of them with a pack, both collected in map order and then sorted. */
  method Partition(toolSet: set<string>, have: set<string>) returns (tools: seq<string>, selected: seq<string>)
    ensures tools == SortedSet(toolSet) && selected == SortedSet(toolSet * have)
  {
    tools, selected := [], [];
    var pending := toolSet;
    while pending != {}
      invariant pending <= toolSet && Distinct(tools) && Distinct(selected)
      invariant Elements(tools) == toolSet - pending && Elements(selected) == (toolSet - pending) * have
      decreases |pending|
    {
      var tool :| tool in pending;
      Appended(tools, tool);
      tools := tools + [tool];
      if tool in have {
        Appended(selected, tool);
        selected := selected + [tool];
      }
      pending := pending - {tool};
    }
    assert toolSet - pending == toolSet;
    tools := SortDistinctly(tools);
    selected := SortDistinctly(selected);
  }

  lemma Appended(xs: seq<string>, x: string)
    requires Distinct(xs) && x !in Elements(xs)
    ensures Distinct(xs + [x]) && Elements(xs + [x]) == Elements(xs) + {x}
  {
  }

  method Route(caps: map<string, string>, roles: seq<string>, available: seq<string>) returns (r: Routing)
    ensures r == RouteOf(caps, roles, available)
  {
    var have := Elements(available);
    if |roles| == 0 {
      var missing := DeclaredWithoutPack(caps, have);
      return Routing([], [], Sort(available, LexLe), missing, true);
    }
    var wanted := DedupeSorted(roles);
    var toolSet, missing := Resolve(caps, wanted, have);
    var tools, selected := Partition(toolSet, have);
    r := Routing(wanted, tools, selected, Sort(missing, LexLe), false);
  }

  lemma {:induction false} LackingMembers(caps: map<string, string>, roles: seq<string>, have: set<string>, t: string)
    ensures t in Lacking(caps, roles, have) <==> t in Filling(caps, Elements(roles)) - have
  {
    if roles == [] {
    } else {
      var n := |roles| - 1;
      assert roles == roles[..n] + [roles[n]];
      assert Elements(roles) == Elements(roles[..n]) + {roles[n]};
      LackingMembers(caps, roles[..n], have, t);
    }
  }

  /** The roles a tool fills among the given ones. */
  function FilledBy(caps: map<string, string>, roles: seq<string>, tool: string): set<string> {
    set role | role in roles && role != "" && role in caps && caps[role] == tool
  }

  lemma {:induction false} LackingCount(caps: map<string, string>, roles: seq<string>, have: set<string>, tool: string)
    requires Distinct(roles) && "" !in roles && tool != "" && tool !in have
    ensures multiset(Lacking(caps, roles, have))[tool] == |FilledBy(caps, roles, tool)|
  {
    if roles == [] {
      assert FilledBy(caps, roles, tool) == {};
    } else {
      var n := |roles| - 1;
      var role, rest := roles[n], roles[..n];
      assert roles == rest + [role];
      LackingCount(caps, rest, have, tool);
      assert role !in FilledBy(caps, rest, tool);
      if role in caps && caps[role] == tool {
        assert FilledBy(caps, roles, tool) == FilledBy(caps, rest, tool) + {role};
      } else {
        assert FilledBy(caps, roles, tool) == FilledBy(caps, rest, tool);
      }
    }
  }

  /** With roles given: the selected packs are the routed tools that have one, the missing ones
      are exactly the rest, and no tool is both. Everything is sorted. Only Missing may name a tool
      more than once, which it does once for each role the tool fills. */
  lemma RoutesExactly(caps: map<string, string>, roles: seq<string>, available: seq<string>, tool: string)
    requires roles != []
    ensures var r := RouteOf(caps, roles, available);
            && (forall role :: role in r.roles <==> role in roles && role != "") && !r.loadedAll
            && (tool in r.tools <==>
                 exists role :: role in roles && role != "" && role in caps && caps[role] == tool && tool != "")
            && (tool in r.selected <==> tool in r.tools && tool in available)
            && (tool in r.missing <==> tool in r.tools && tool !in available)
            && (tool in r.missing ==> multiset(r.missing)[tool] == |FilledBy(caps, roles, tool)|)
            && SortedBy(r.missing, LexLe) && Distinct(r.tools) && Distinct(r.selected) && Distinct(r.roles)
            && SortedBy(r.roles, LexLe) && SortedBy(r.tools, LexLe) && SortedBy(r.selected, LexLe)
  {
    var have, wanted := Elements(available), SortedSet(Elements(roles) - {""});
    var tools := Filling(caps, Elements(wanted));
    InSortedSet(Elements(roles) - {""});
    InSortedSet(tools);
    InSortedSet(tools * have);
    MissingExactly(caps, roles, wanted, have, tool);
  }

  lemma InSortedSet(xs: set<string>)
    ensures forall x :: x in SortedSet(xs) <==> x in xs
  {
    assert forall x :: x in SortedSet(xs) <==> x in Elements(SortedSet(xs));
  }

  lemma MissingExactly(caps: map<string, string>, roles: seq<string>, wanted: seq<string>, have: set<string>,
                       tool: string)
    requires wanted == SortedSet(Elements(roles) - {""})
    ensures var missing := Sort(Lacking(caps, wanted, have), LexLe);
            && SortedBy(missing, LexLe)
            && (tool in missing <==> tool in Filling(caps, Elements(wanted)) && tool !in have)
            && (tool in missing ==> multiset(missing)[tool] == |FilledBy(caps, roles, tool)|)
  {
    InSortedSet(Elements(roles) - {""});
    LackingMembers(caps, wanted, have, tool);
    SortPermutes(Lacking(caps, wanted, have), LexLe);
    LexOrder();
    SortSorts(Lacking(caps, wanted, have), LexLe);
    if tool in Filling(caps, Elements(wanted)) && tool !in have {
      LackingCount(caps, wanted, have, tool);
      assert FilledBy(caps, wanted, tool) == FilledBy(caps, roles, tool);
    }
  }

  /** With no roles given: every pack on disk is selected, and a tool is missing exactly if the
      capability map declares it and it has no pack. */
  lemma RoutesEverything(caps: map<string, string>, available: seq<string>, tool: string)
    ensures var r := RouteOf(caps, [], available);
            && multiset(r.selected) == multiset(available) && SortedBy(r.selected, LexLe) && r.loadedAll
            && (tool in r.missing <==>
                 tool != "" && tool !in available && exists role :: role in caps && caps[role] == tool)
            && SortedBy(r.missing, LexLe) && Distinct(r.missing)
  {
    var lacking := set role | role in caps && caps[role] != "" && caps[role] !in Elements(available) :: caps[role];
    assert tool in SortedSet(lacking) <==> tool in Elements(SortedSet(lacking));
    SortPermutes(available, LexLe);
    LexOrder();
    SortSorts(available, LexLe);
  }

  /** The lookup that loads skills: no filter when everything was asked for. */
  function SelectionSet(r: Routing): Option<set<string>> {
    if r.loadedAll then None else Some(Elements(r.selected))
  }
}
