/**
 Installation of a descriptor list into the host function registry: the names are
 checked for repetition and each contract against its declaration, in name order,
 before anything is installed; then all descriptors are installed in one transaction.
 What the registry itself refuses, and the raw-handle check of the whole list, are
 given as functions.
 */
module HostInstall {
  import opened HostTable
  import opened Queues
  import opened Wrappers

  datatype InstallError =
    | Duplicate(name: string)
    | Undeclared(name: string)
    | Mismatch(name: string)
    | InvalidRawHandles
    | Refused(name: string)

  /** A published function must have its declared schema; any other must be a reviewed extension. */
  function ContractProblem(abi: seq<Descriptor>, extensions: set<string>, d: Descriptor): Option<InstallError> {
    var declared := LastNamed(abi, d.name);
    if declared.None? then
      if d.name in extensions then None else Some(Undeclared(d.name))
    else if declared.value.schema != d.schema then Some(Mismatch(d.name))
    else None
  }

  /** With unique names in the ABI: published with this very schema, or not published and reviewed. */
  lemma ContractMeans(abi: seq<Descriptor>, extensions: set<string>, d: Descriptor)
    requires Distinct(Names(abi))
    ensures ContractProblem(abi, extensions, d) == None <==>
              || (exists e :: e in abi && e.name == d.name && e.schema == d.schema)
              || (d.name !in Names(abi) && d.name in extensions)
    ensures ContractProblem(abi, extensions, d) == Some(Undeclared(d.name)) <==>
              d.name !in Names(abi) && d.name !in extensions
    ensures ContractProblem(abi, extensions, d) == Some(Mismatch(d.name)) <==>
              exists e :: e in abi && e.name == d.name && e.schema != d.schema
  {
    hide Names, Distinct;
    NamedIff(abi, d.name);
    forall e | e in abi && e.name == d.name
      ensures LastNamed(abi, d.name) == Some(e)
    {
      InByName(abi, e);
    }
  }

  function FirstProblem(abi: seq<Descriptor>, extensions: set<string>, ordered: seq<Descriptor>, seen: set<string>)
      : Option<InstallError>
    decreases |ordered|
  {
    if ordered == [] then None
    else if ordered[0].name in seen then Some(Duplicate(ordered[0].name))
    else if ContractProblem(abi, extensions, ordered[0]).Some? then ContractProblem(abi, extensions, ordered[0])
    else FirstProblem(abi, extensions, ordered[1..], seen + {ordered[0].name})
  }

  predicate ContractsHold(abi: seq<Descriptor>, extensions: set<string>, descriptors: seq<Descriptor>) {
    forall d :: d in descriptors ==> ContractProblem(abi, extensions, d) == None
  }

  predicate Unseen(descriptors: seq<Descriptor>, seen: set<string>) {
    forall d :: d in descriptors ==> d.name !in seen
  }

  lemma UnseenTail(s: seq<Descriptor>, seen: set<string>)
    requires s != [] && s[0].name !in Names(s[1..])
    ensures Unseen(s, seen) <==> s[0].name !in seen && Unseen(s[1..], seen + {s[0].name})
  {
    assert s == [s[0]] + s[1..];
    NamedIff(s[1..], s[0].name);
  }

  /** The checks pass exactly when no name repeats and every contract holds. */
  lemma {:induction false} NoProblem(abi: seq<Descriptor>, extensions: set<string>, s: seq<Descriptor>,
                                     seen: set<string>)
    ensures FirstProblem(abi, extensions, s, seen) == None
       <==> Distinct(Names(s)) && Unseen(s, seen) && ContractsHold(abi, extensions, s)
    decreases |s|
  {
    if s != [] {
      NoProblem(abi, extensions, s[1..], seen + {s[0].name});
      assert s == [s[0]] + s[1..] && Names(s)[1..] == Names(s[1..]);
      NamedIff(s[1..], s[0].name);
      if s[0].name in Names(s[1..]) {
        assert !Unseen(s[1..], seen + {s[0].name});
      } else {
        UnseenTail(s, seen);
      }
    }
  }

  lemma {:induction false} NeverDuplicate(abi: seq<Descriptor>, extensions: set<string>, s: seq<Descriptor>,
                                          seen: set<string>)
    requires Distinct(Names(s)) && Unseen(s, seen)
    ensures var problem := FirstProblem(abi, extensions, s, seen);
            problem.Some? ==> !problem.value.Duplicate?
    decreases |s|
  {
    if s != [] {
      assert Names(s)[1..] == Names(s[1..]);
      UnseenTail(s, seen);
      NeverDuplicate(abi, extensions, s[1..], seen + {s[0].name});
    }
  }

  /** The problem reported is that of the first descriptor that has one; repeating a name comes before its contract. */
  lemma {:induction false} ProblemIsFirst(abi: seq<Descriptor>, extensions: set<string>, s: seq<Descriptor>,
                                          seen: set<string>) returns (i: nat)
    requires FirstProblem(abi, extensions, s, seen).Some?
    ensures i < |s| && FirstProblem(abi, extensions, s[..i], seen) == None
    ensures FirstProblem(abi, extensions, s, seen)
         == if s[i].name in seen || s[i].name in Names(s[..i]) then Some(Duplicate(s[i].name))
            else ContractProblem(abi, extensions, s[i])
    decreases |s|
  {
    hide ContractProblem;
    i := 0;
    if s[0].name !in seen && ContractProblem(abi, extensions, s[0]) == None {
      var more := ProblemIsFirst(abi, extensions, s[1..], seen + {s[0].name});
      i := more + 1;
      assert s[..i][1..] == s[1..][..more];
      assert Names(s[..i]) == [s[0].name] + Names(s[1..][..more]);
    }
  }

  function Checked(abi: seq<Descriptor>, extensions: set<string>, descriptors: seq<Descriptor>): Option<InstallError> {
    FirstProblem(abi, extensions, Sort(descriptors), {})
  }

  lemma CheckedMeans(abi: seq<Descriptor>, extensions: set<string>, descriptors: seq<Descriptor>)
    ensures Checked(abi, extensions, descriptors) == None
       <==> Distinct(Names(descriptors)) && ContractsHold(abi, extensions, descriptors)
    ensures Distinct(Names(descriptors)) && Checked(abi, extensions, descriptors).Some? ==>
              !Checked(abi, extensions, descriptors).value.Duplicate?
  {
    var ordered := Sort(descriptors);
    NoProblem(abi, extensions, ordered, {});
    SortNames(descriptors);
    SortFacts(descriptors);
    assert forall d :: d in ordered <==> d in multiset(ordered);
    assert forall d :: d in descriptors <==> d in multiset(descriptors);
    if Distinct(Names(descriptors)) {
      NeverDuplicate(abi, extensions, ordered, {});
    }
  }

  /**
   The composed list of any mask passes the duplicate check exactly when the ABI's
   own names are unique, whatever the inventory; the placeholders always keep their
   contracts, so only a function in the mask can fail its contract.
   */
  lemma ComposedAccepted(abi: seq<Descriptor>, extensions: set<string>, inventory: seq<Registration>, mask: bv16)
    ensures var problem := Checked(abi, extensions, Composed(abi, inventory, mask));
            && (!Distinct(Names(abi)) ==> problem.Some?)
            && (Distinct(Names(abi)) && problem.Some? ==> !problem.value.Duplicate?)
            && (Distinct(Names(abi)) ==>
                  (problem == None <==> LastContractsHold(abi, extensions, Selected(inventory, mask))))
  {
    hide Composed, Checked, LastNamed, Names, Distinct, Selected, ContractProblem;
    var all := Composed(abi, inventory, mask);
    CheckedMeans(abi, extensions, all);
    ComposedNames(abi, inventory, mask);
    if Distinct(Names(abi)) {
      ComposedContracts(abi, extensions, inventory, mask);
    }
  }

  /** The contracts of the functions that count: the last of each name. */
  ghost predicate LastContractsHold(abi: seq<Descriptor>, extensions: set<string>, own: seq<Descriptor>) {
    forall name :: LastNamed(own, name).Some? ==>
      ContractProblem(abi, extensions, LastNamed(own, name).value) == None
  }

  lemma ComposedContracts(abi: seq<Descriptor>, extensions: set<string>, inventory: seq<Registration>, mask: bv16)
    requires Distinct(Names(abi))
    ensures ContractsHold(abi, extensions, Composed(abi, inventory, mask))
       <==> LastContractsHold(abi, extensions, Selected(inventory, mask))
  {
    hide Composed, LastNamed, Names, Distinct, Selected, ContractProblem;
    var all, own := Composed(abi, inventory, mask), Selected(inventory, mask);
    ComposedNames(abi, inventory, mask);
    if ContractsHold(abi, extensions, all) {
      forall name | LastNamed(own, name).Some?
        ensures ContractProblem(abi, extensions, LastNamed(own, name).value) == None
      {
        ComposedEntry(abi, inventory, mask, name);
        assert LastNamed(all, name).value in all;
      }
    } else {
      var d :| d in all && ContractProblem(abi, extensions, d) != None;
      InByName(all, d);
      ComposedEntry(abi, inventory, mask, d.name);
      PlaceholderContract(abi, extensions, d.name);
      assert LastNamed(own, d.name) == Some(d);
    }
  }

  lemma PlaceholderContract(abi: seq<Descriptor>, extensions: set<string>, name: string)
    ensures LastNamed(abi, name).Some? ==> ContractProblem(abi, extensions, LastNamed(abi, name).value) == None
  {
  }

  // ---------------------------------------------------------------- the registry in place

  /** The table after the descriptors are put into it one by one. */
  function Installed(entries: map<string, Descriptor>, descriptors: seq<Descriptor>): map<string, Descriptor>
    decreases |descriptors|
  {
    if descriptors == [] then entries
    else
      var last := |descriptors| - 1;
      Installed(entries, descriptors[..last])[descriptors[last].name := descriptors[last]]
  }

  lemma {:induction false} InstalledMeans(entries: map<string, Descriptor>, descriptors: seq<Descriptor>, name: string)
    ensures Lookup(Installed(entries, descriptors), name)
         == if LastNamed(descriptors, name).Some? then LastNamed(descriptors, name) else Lookup(entries, name)
    decreases |descriptors|
  {
    if descriptors != [] {
      var last := |descriptors| - 1;
      InstalledMeans(entries, descriptors[..last], name);
      assert descriptors == descriptors[..last] + [descriptors[last]];
      LastNamedAppend(descriptors[..last], [descriptors[last]], name);
      LastNamedOne(descriptors[last], name);
    }
  }

  lemma NoNames()
    ensures Elements(Names([])) == {}
  {
  }

  predicate Accepted(abi: seq<Descriptor>, extensions: set<string>, descriptors: seq<Descriptor>,
                     rawHandlesValid: seq<Descriptor> -> bool, installs: Descriptor -> bool)
  {
    && Checked(abi, extensions, descriptors) == None
    && rawHandlesValid(descriptors)
    && forall d :: d in descriptors ==> installs(d)
  }

  class HostFunctionRegistry {
    var entries: map<string, Descriptor>
    var authorized: set<string>

    constructor ()
      ensures entries == map[] && authorized == {}
    {
      entries, authorized := map[], {};
    }

    /** The checks over the list in name order, with the names met so far. */
    method CheckDescriptors(abi: seq<Descriptor>, extensions: set<string>, descriptors: seq<Descriptor>)
        returns (problem: Option<InstallError>)
      ensures problem == Checked(abi, extensions, descriptors)
    {
      var ordered := Sort(descriptors);
      var seen := {};
      for i := 0 to |ordered|
        invariant Checked(abi, extensions, descriptors) == FirstProblem(abi, extensions, ordered[i..], seen)
      {
        assert ordered[i..][1..] == ordered[i + 1..];
        if ordered[i].name in seen {
          return Some(Duplicate(ordered[i].name));
        }
        seen := seen + {ordered[i].name};
        problem := ContractProblem(abi, extensions, ordered[i]);
        if problem.Some? {
          return;
        }
      }
      return None;
    }

    /** The transaction: either every descriptor is installed, or the registry is as it was. */
    method InstallAll(descriptors: seq<Descriptor>, installs: Descriptor -> bool)
        returns (problem: Option<InstallError>)
      modifies this
      ensures problem == None <==> forall d :: d in descriptors ==> installs(d)
      ensures problem.Some? ==> problem.value.Refused? && entries == old(entries) && authorized == old(authorized)
      ensures problem == None ==>
                && entries == Installed(old(entries), descriptors)
                && authorized == old(authorized) + Elements(Names(descriptors))
    {
      hide Names;
      var before, authorizedBefore := entries, authorized;
      NoNames();
      for i := 0 to |descriptors|
        invariant entries == Installed(before, descriptors[..i])
        invariant authorized == authorizedBefore + Elements(Names(descriptors[..i]))
        invariant forall d :: d in descriptors[..i] ==> installs(d)
      {
        var d := descriptors[i];
        if !installs(d) {
          entries, authorized := before, authorizedBefore;
          return Some(Refused(d.name));
        }
        NamesSnoc(descriptors, i);
        assert descriptors[..i + 1][..i] == descriptors[..i];
        entries := entries[d.name := d];
        authorized := authorized + {d.name};
      }
      assert descriptors[..|descriptors|] == descriptors;
      return None;
    }

    /** All or nothing: a rejected list leaves the registry as it was. */
    method InstallEdgeDescriptors(abi: seq<Descriptor>, extensions: set<string>, descriptors: seq<Descriptor>,
                                  rawHandlesValid: seq<Descriptor> -> bool, installs: Descriptor -> bool)
        returns (problem: Option<InstallError>)
      modifies this
      ensures problem == None <==> Accepted(abi, extensions, descriptors, rawHandlesValid, installs)
      ensures Checked(abi, extensions, descriptors).Some? ==> problem == Checked(abi, extensions, descriptors)
      ensures problem.Some? ==> entries == old(entries) && authorized == old(authorized)
      ensures problem == None ==>
                && entries == Installed(old(entries), descriptors)
                && authorized == old(authorized) + Elements(Names(descriptors))
      ensures problem.Some? && problem.value.Duplicate? ==> !Distinct(Names(descriptors))
    {
      hide Checked, Installed, Names, Distinct, Elements;
      CheckedMeans(abi, extensions, descriptors);
      problem := CheckDescriptors(abi, extensions, descriptors);
      if problem.Some? {
        return;
      }
      if !rawHandlesValid(descriptors) {
        return Some(InvalidRawHandles);
      }
      problem := InstallAll(descriptors, installs);
    }
  }

  /** A registry built for a mask binds every name to what is expected there, and no other name. */
  method RegistryForScopeMask(abi: seq<Descriptor>, extensions: set<string>, inventory: seq<Registration>, mask: bv16,
                              rawHandlesValid: seq<Descriptor> -> bool, installs: Descriptor -> bool)
      returns (r: Result<map<string, Descriptor>, InstallError>)
    ensures r.Success? <==> Accepted(abi, extensions, Composed(abi, inventory, mask), rawHandlesValid, installs)
    ensures r.Success? ==>
              && Distinct(Names(abi))
              && forall name :: Lookup(r.value, name) == Expected(abi, inventory, mask, name)
    ensures r.Failure? && r.error.Duplicate? ==> !Distinct(Names(abi))
  {
    hide Composed, Checked, LastNamed, Names, Distinct, Selected, Expected;
    var registry := new HostFunctionRegistry();
    var descriptors := CompleteScopeDescriptors(abi, inventory, mask);
    var problem := registry.InstallEdgeDescriptors(abi, extensions, descriptors, rawHandlesValid, installs);
    ComposedNames(abi, inventory, mask);
    if problem.Some? {
      return Failure(problem.value);
    }
    CheckedMeans(abi, extensions, descriptors);
    forall name
      ensures Lookup(registry.entries, name) == Expected(abi, inventory, mask, name)
    {
      InstalledMeans(map[], descriptors, name);
      ComposedEntry(abi, inventory, mask, name);
    }
    return Success(registry.entries);
  }
}
