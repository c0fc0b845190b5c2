/**
 Composition of the host function table. Functions are discovered in an inventory,
 each with the scope that declares it. For a mask of scopes the table holds every
 published ABI name, bound to its implementation when the mask has one and to the
 unbound placeholder otherwise, and after those the implemented functions outside the
 ABI, by name. The installer rejects a repeated name and a contract that differs from
 the declared one, and installs in one transaction.
 */
module HostTable {
  import opened Queues
  import opened Wrappers

  datatype Scope = Runtime | Http | HttpExtension | Io | Transport | Mqtt | WebSocket | WebRtc | Proxy | Console

  function ScopeMask(scope: Scope): bv16 {
    match scope
    case Runtime => 0x001
    case Http => 0x002
    case HttpExtension => 0x004
    case Io => 0x008
    case Transport => 0x010
    case Mqtt => 0x020
    case WebSocket => 0x040
    case WebRtc => 0x080
    case Proxy => 0x100
    case Console => 0x200
  }

  predicate Meets(x: bv16, y: bv16) {
    x & y != 0
  }

  predicate InMask(scope: Scope, mask: bv16) {
    Meets(mask, ScopeMask(scope))
  }

  lemma ScopesAreBits(a: Scope, b: Scope)
    ensures InMask(a, ScopeMask(b)) <==> a == b
  {
  }

  lemma MeetsEither(x: bv16, y: bv16, z: bv16)
    ensures (x | y) & z != 0 <==> x & z != 0 || y & z != 0
  {
  }

  lemma AddBits(next: bv16, mask: bv16, bits: bv16, z: bv16)
    requires next == mask | bits
    ensures Meets(next, z) <==> Meets(mask, z) || Meets(bits, z)
  {
    MeetsEither(mask, bits, z);
  }

  lemma AddScope(next: bv16, mask: bv16, added: Scope, scope: Scope)
    requires next == mask | ScopeMask(added)
    ensures InMask(scope, next) <==> InMask(scope, mask) || scope == added
  {
    hide ScopeMask, Meets;
    ScopesAreBits(scope, added);
    AddBits(next, mask, ScopeMask(added), ScopeMask(scope));
  }

  lemma EmptyMask(scope: Scope)
    ensures !InMask(scope, 0)
  {
  }

  /** A mask of scopes contains exactly those scopes. */
  method ScopesMask(scopes: seq<Scope>) returns (mask: bv16)
    ensures forall scope :: InMask(scope, mask) <==> scope in scopes
  {
    hide InMask, ScopeMask;
    mask := 0;
    forall scope
      ensures !InMask(scope, mask)
    {
      EmptyMask(scope);
    }
    for i := 0 to |scopes|
      invariant forall scope :: InMask(scope, mask) <==> scope in scopes[..i]
    {
      var next := mask | ScopeMask(scopes[i]);
      forall scope
        ensures InMask(scope, next) <==> scope in scopes[..i + 1]
      {
        AddScope(next, mask, scopes[i], scope);
        assert scopes[..i + 1] == scopes[..i] + [scopes[i]];
      }
      mask := next;
    }
  }

  // ---------------------------------------------------------------- descriptors and their order

  datatype Adapter = Unbound | Native(id: nat)

  datatype Descriptor = Descriptor(name: string, schema: string, adapter: Adapter)

  datatype Registration = Registration(scope: Scope, descriptor: Descriptor)

  function Selected(inventory: seq<Registration>, mask: bv16): seq<Descriptor> {
    if inventory == [] then []
    else if InMask(inventory[0].scope, mask) then [inventory[0].descriptor] + Selected(inventory[1..], mask)
    else Selected(inventory[1..], mask)
  }

  function Names(s: seq<Descriptor>): (names: seq<string>)
    ensures |names| == |s|
  {
    if s == [] then [] else [s[0].name] + Names(s[1..])
  }

  lemma {:induction false} NamesAt(s: seq<Descriptor>, i: nat)
    requires i < |s|
    ensures Names(s)[i] == s[i].name
    decreases i
  {
    if i > 0 {
      NamesAt(s[1..], i - 1);
    }
  }

  lemma {:induction false} NamesAppend(s: seq<Descriptor>, t: seq<Descriptor>)
    ensures Names(s + t) == Names(s) + Names(t)
  {
    if s == [] {
      assert s + t == t;
    } else {
      assert (s + t)[1..] == s[1..] + t;
      NamesAppend(s[1..], t);
    }
  }

  /** The last descriptor of that name. */
  function LastNamed(s: seq<Descriptor>, name: string): (r: Option<Descriptor>)
    ensures r.Some? ==> r.value in s && r.value.name == name
    ensures r.None? ==> forall d :: d in s ==> d.name != name
  {
    if s == [] then None
    else
      var later := LastNamed(s[1..], name);
      if later.Some? then later else if s[0].name == name then Some(s[0]) else None
  }

  lemma {:induction false} NamedIff(s: seq<Descriptor>, name: string)
    ensures name in Names(s) <==> LastNamed(s, name).Some?
  {
    if s != [] {
      NamedIff(s[1..], name);
      assert Names(s)[1..] == Names(s[1..]);
    }
  }

  lemma {:induction false} LastNamedAppend(s: seq<Descriptor>, t: seq<Descriptor>, name: string)
    ensures LastNamed(s + t, name) == if LastNamed(t, name).Some? then LastNamed(t, name) else LastNamed(s, name)
  {
    if s == [] {
      assert s + t == t;
    } else {
      assert (s + t)[1..] == s[1..] + t;
      LastNamedAppend(s[1..], t, name);
    }
  }

  /** Names are compared character by character. */
  predicate AtMost(a: string, b: string) {
    a == [] || (b != [] && (a[0] < b[0] || (a[0] == b[0] && AtMost(a[1..], b[1..]))))
  }

  lemma {:induction false} AtMostTotal(a: string, b: string)
    ensures AtMost(a, b) || AtMost(b, a)
  {
    if a != [] && b != [] {
      AtMostTotal(a[1..], b[1..]);
    }
  }

  lemma {:induction false} AtMostAntisymmetric(a: string, b: string)
    requires AtMost(a, b) && AtMost(b, a)
    ensures a == b
  {
    if a != [] && b != [] {
      AtMostAntisymmetric(a[1..], b[1..]);
      assert a == [a[0]] + a[1..] && b == [b[0]] + b[1..];
    }
  }

  lemma {:induction false} AtMostTransitive(a: string, b: string, c: string)
    requires AtMost(a, b) && AtMost(b, c)
    ensures AtMost(a, c)
  {
    if a != [] && b != [] && c != [] && a[0] == b[0] == c[0] {
      AtMostTransitive(a[1..], b[1..], c[1..]);
    }
  }

  function Insert(d: Descriptor, s: seq<Descriptor>): seq<Descriptor> {
    if s == [] || AtMost(d.name, s[0].name) then [d] + s else [s[0]] + Insert(d, s[1..])
  }

  /** Stable sort by name. */
  function Sort(s: seq<Descriptor>): seq<Descriptor> {
    if s == [] then [] else Insert(s[0], Sort(s[1..]))
  }

  predicate Sorted(s: seq<Descriptor>) {
    |s| > 1 ==> AtMost(s[0].name, s[1].name) && Sorted(s[1..])
  }

  lemma {:induction false} InsertElements(d: Descriptor, s: seq<Descriptor>)
    ensures multiset(Insert(d, s)) == multiset{d} + multiset(s)
  {
    if s != [] {
      assert s == [s[0]] + s[1..];
      InsertElements(d, s[1..]);
    }
  }

  lemma {:induction false} InsertSorts(d: Descriptor, s: seq<Descriptor>)
    requires Sorted(s)
    ensures Sorted(Insert(d, s))
  {
    if s != [] && !AtMost(d.name, s[0].name) {
      AtMostTotal(d.name, s[0].name);
      InsertSorts(d, s[1..]);
      assert Insert(d, s)[1..] == Insert(d, s[1..]);
    } else if s != [] {
      assert Insert(d, s)[1..] == s;
    }
  }

  lemma {:induction false} SortFacts(s: seq<Descriptor>)
    ensures Sorted(Sort(s)) && multiset(Sort(s)) == multiset(s)
  {
    if s != [] {
      SortFacts(s[1..]);
      InsertSorts(s[0], Sort(s[1..]));
      InsertElements(s[0], Sort(s[1..]));
      assert s == [s[0]] + s[1..];
    }
  }

  lemma {:induction false} InsertKeepsLast(d: Descriptor, s: seq<Descriptor>, name: string)
    ensures LastNamed(Insert(d, s), name) == LastNamed([d] + s, name)
  {
    if s != [] && !AtMost(d.name, s[0].name) {
      InsertKeepsLast(d, s[1..], name);
      AtMostTotal(d.name, s[0].name);
      LastNamedAppend([d], s, name);
      LastNamedAppend([d], s[1..], name);
      assert Insert(d, s)[1..] == Insert(d, s[1..]);
      assert AtMost(d.name, s[0].name) || d.name != s[0].name by {
        AtMostTotal(d.name, d.name);
      }
    }
  }

  /** Sorting is stable, so it keeps the last descriptor of each name last. */
  lemma {:induction false} SortKeepsLast(s: seq<Descriptor>, name: string)
    ensures LastNamed(Sort(s), name) == LastNamed(s, name)
  {
    if s != [] {
      SortKeepsLast(s[1..], name);
      InsertKeepsLast(s[0], Sort(s[1..]), name);
      LastNamedAppend([s[0]], Sort(s[1..]), name);
      LastNamedAppend([s[0]], s[1..], name);
      assert s == [s[0]] + s[1..];
    }
  }

  // ---------------------------------------------------------------- one list for one set of names

  /** Sorted, without a repeated name. */
  predicate Ascending(s: seq<Descriptor>) {
    |s| > 1 ==> AtMost(s[0].name, s[1].name) && s[0].name != s[1].name && Ascending(s[1..])
  }

  lemma {:induction false} HeadIsLeast(s: seq<Descriptor>, i: nat)
    requires Ascending(s) && i < |s|
    ensures AtMost(s[0].name, s[i].name) && (i > 0 ==> s[0].name != s[i].name)
    decreases i
  {
    AtMostTotal(s[0].name, s[0].name);
    if i > 0 {
      HeadIsLeast(s[1..], i - 1);
      AtMostTransitive(s[0].name, s[1].name, s[i].name);
      if s[0].name == s[i].name {
        AtMostAntisymmetric(s[0].name, s[1].name);
      }
    }
  }

  /** An ascending list is determined by its elements. */
  lemma {:induction false} AscendingUnique(s: seq<Descriptor>, t: seq<Descriptor>)
    requires Ascending(s) && Ascending(t) && forall d :: d in s <==> d in t
    ensures s == t
    decreases |s|
  {
    assert t != [] ==> t[0] in s;
    if s != [] {
      assert s[0] in t;
      var i :| 0 <= i < |t| && t[i] == s[0];
      var j :| 0 <= j < |s| && s[j] == t[0];
      HeadIsLeast(t, i);
      HeadIsLeast(s, j);
      AtMostAntisymmetric(s[0].name, t[0].name);
      TailMembers(s);
      TailMembers(t);
      AscendingUnique(s[1..], t[1..]);
      assert s == [s[0]] + s[1..] && t == [t[0]] + t[1..];
    }
  }

  lemma TailMembers(s: seq<Descriptor>)
    requires Ascending(s) && s != []
    ensures forall d :: d in s[1..] <==> d in s && d != s[0]
  {
    forall d | d in s[1..]
      ensures d in s && d != s[0]
    {
      var i :| 0 <= i < |s[1..]| && s[1..][i] == d;
      HeadIsLeast(s, i + 1);
    }
    assert s == [s[0]] + s[1..];
  }

  lemma {:induction false} DistinctAscends(s: seq<Descriptor>)
    requires Sorted(s) && Distinct(Names(s))
    ensures Ascending(s)
  {
    if |s| > 1 {
      assert Names(s)[1..] == Names(s[1..]);
      assert Names(s[1..])[0] == s[1].name;
      DistinctAscends(s[1..]);
    }
  }

  lemma {:induction false} DistinctMeans(s: seq<string>)
    ensures Distinct(s) <==> forall x :: multiset(s)[x] <= 1
  {
    if s != [] {
      assert s == [s[0]] + s[1..];
      DistinctMeans(s[1..]);
      if Distinct(s) {
        assert multiset(s[1..])[s[0]] == 0;
      } else if s[0] in s[1..] {
        assert multiset(s)[s[0]] > 1;
      } else {
        var x :| multiset(s[1..])[x] > 1;
        assert multiset(s)[x] > 1;
      }
    }
  }

  lemma {:induction false} SortNames(s: seq<Descriptor>)
    ensures multiset(Names(Sort(s))) == multiset(Names(s))
    ensures Distinct(Names(Sort(s))) <==> Distinct(Names(s))
  {
    if s != [] {
      SortNames(s[1..]);
      InsertNames(s[0], Sort(s[1..]));
    }
    DistinctMeans(Names(s));
    DistinctMeans(Names(Sort(s)));
  }

  lemma {:induction false} InsertNames(d: Descriptor, s: seq<Descriptor>)
    ensures multiset(Names(Insert(d, s))) == multiset{d.name} + multiset(Names(s))
  {
    if s != [] && !AtMost(d.name, s[0].name) {
      InsertNames(d, s[1..]);
      assert Insert(d, s)[1..] == Insert(d, s[1..]);
    } else {
      assert Insert(d, s)[1..] == s;
    }
  }

  lemma {:induction false} DistinctNamed(s: seq<Descriptor>, i: nat)
    requires Distinct(Names(s)) && i < |s|
    ensures LastNamed(s, s[i].name) == Some(s[i])
    decreases i
  {
    assert Names(s)[1..] == Names(s[1..]);
    if i > 0 {
      DistinctNamed(s[1..], i - 1);
    } else {
      NamedIff(s[1..], s[0].name);
    }
  }

  // ---------------------------------------------------------------- composition

  /*
   The published ABI is given by the placeholder of each of its functions: the
   declared name and schema with the unbound adapter.
   */

  /** What the table holds at ABI position `i`. */
  function Entry(abi: seq<Descriptor>, implemented: seq<Descriptor>, i: nat): (d: Descriptor)
    requires i < |abi|
    ensures d.name == abi[i].name
  {
    var name := abi[i].name;
    var own := LastNamed(implemented, name);
    if own.Some? && name !in Names(abi[..i]) then own.value else LastNamed(abi, name).value
  }

  function AbiPart(abi: seq<Descriptor>, implemented: seq<Descriptor>, n: nat): seq<Descriptor>
    requires n <= |abi|
  {
    seq(n, i requires 0 <= i < n => Entry(abi, implemented, i))
  }

  /** Whether the first is the last of its name, and the ABI does not publish it. */
  predicate IsExtra(implemented: seq<Descriptor>, abi: seq<Descriptor>)
    requires implemented != []
  {
    LastNamed(implemented[1..], implemented[0].name).None? && LastNamed(abi, implemented[0].name).None?
  }

  function Extras(implemented: seq<Descriptor>, abi: seq<Descriptor>): seq<Descriptor> {
    if implemented == [] then []
    else if IsExtra(implemented, abi) then [implemented[0]] + Extras(implemented[1..], abi)
    else Extras(implemented[1..], abi)
  }

  function Composed(abi: seq<Descriptor>, inventory: seq<Registration>, mask: bv16): seq<Descriptor> {
    var implemented := Sort(Selected(inventory, mask));
    AbiPart(abi, implemented, |abi|) + Extras(implemented, abi)
  }

  lemma {:induction false} ExtrasNamed(s: seq<Descriptor>, abi: seq<Descriptor>, name: string)
    ensures LastNamed(Extras(s, abi), name) == if LastNamed(abi, name).Some? then None else LastNamed(s, name)
  {
    if s != [] {
      ExtrasNamed(s[1..], abi, name);
      if IsExtra(s, abi) {
        assert Extras(s, abi)[1..] == Extras(s[1..], abi);
      }
    }
  }

  lemma {:induction false} ExtrasDistinct(s: seq<Descriptor>, abi: seq<Descriptor>)
    ensures Distinct(Names(Extras(s, abi)))
  {
    if s != [] {
      ExtrasDistinct(s[1..], abi);
      if IsExtra(s, abi) {
        ExtrasNamed(s[1..], abi, s[0].name);
        NamedIff(Extras(s[1..], abi), s[0].name);
        assert Extras(s, abi)[1..] == Extras(s[1..], abi);
        assert Names(Extras(s, abi))[1..] == Names(Extras(s[1..], abi));
      }
    }
  }

  lemma {:induction false} ExtrasSorted(s: seq<Descriptor>, abi: seq<Descriptor>)
    requires Sorted(s)
    ensures Sorted(Extras(s, abi))
    ensures Extras(s, abi) != [] ==> AtMost(s[0].name, Extras(s, abi)[0].name)
  {
    if s != [] {
      ExtrasSorted(s[1..], abi);
      AtMostTotal(s[0].name, s[0].name);
      var rest := Extras(s[1..], abi);
      if rest != [] {
        AtMostTransitive(s[0].name, s[1].name, rest[0].name);
      }
      if IsExtra(s, abi) {
        assert Extras(s, abi)[1..] == rest;
      }
    }
  }

  lemma {:induction false} ExtrasMembers(s: seq<Descriptor>, abi: seq<Descriptor>, d: Descriptor)
    ensures d in Extras(s, abi) <==> LastNamed(abi, d.name).None? && LastNamed(s, d.name) == Some(d)
  {
    ExtrasNamed(s, abi, d.name);
    ExtrasDistinct(s, abi);
    if d in Extras(s, abi) {
      var i :| 0 <= i < |Extras(s, abi)| && Extras(s, abi)[i] == d;
      DistinctNamed(Extras(s, abi), i);
    }
  }

  lemma AbiPartNames(abi: seq<Descriptor>, implemented: seq<Descriptor>)
    ensures Names(AbiPart(abi, implemented, |abi|)) == Names(abi)
  {
    hide Names, LastNamed;
    forall i: nat | i < |abi|
      ensures Names(AbiPart(abi, implemented, |abi|))[i] == Names(abi)[i]
    {
      NamesAt(abi, i);
      NamesAt(AbiPart(abi, implemented, |abi|), i);
    }
  }

  lemma {:induction false} DistinctParts(a: seq<string>, b: seq<string>)
    ensures Distinct(a + b) <==> Distinct(a) && Distinct(b) && forall x :: x in a ==> x !in b
  {
    if a == [] {
      assert a + b == b;
    } else {
      assert (a + b)[1..] == a[1..] + b && a == [a[0]] + a[1..];
      DistinctParts(a[1..], b);
    }
  }

  /** The composed names repeat exactly when the ABI's own do, whatever the inventory. */
  lemma ComposedNames(abi: seq<Descriptor>, inventory: seq<Registration>, mask: bv16)
    ensures Distinct(Names(Composed(abi, inventory, mask))) <==> Distinct(Names(abi))
  {
    var implemented := Sort(Selected(inventory, mask));
    var extras := Extras(implemented, abi);
    NamesAppend(AbiPart(abi, implemented, |abi|), extras);
    AbiPartNames(abi, implemented);
    ExtrasDistinct(implemented, abi);
    DistinctParts(Names(abi), Names(extras));
    forall name | name in Names(abi)
      ensures name !in Names(extras)
    {
      NamedIff(abi, name);
      ExtrasNamed(implemented, abi, name);
      NamedIff(extras, name);
    }
  }

  /** The function a name should be bound to: its implementation in the mask, or else its placeholder. */
  function Expected(abi: seq<Descriptor>, inventory: seq<Registration>, mask: bv16, name: string)
      : (r: Option<Descriptor>)
    ensures r.Some? ==> r.value.name == name
  {
    var own := LastNamed(Selected(inventory, mask), name);
    if own.Some? then own else LastNamed(abi, name)
  }

  lemma {:induction false} EarlierNames(abi: seq<Descriptor>, i: nat)
    requires Distinct(Names(abi)) && i < |abi|
    ensures abi[i].name !in Names(abi[..i])
    decreases i
  {
    if i > 0 {
      EarlierNames(abi[1..], i - 1);
      assert abi[..i][1..] == abi[1..][..i - 1];
      NamesAt(abi[1..], i - 1);
    }
  }

  lemma AbiPartNamed(abi: seq<Descriptor>, implemented: seq<Descriptor>, name: string)
    requires Distinct(Names(abi))
    ensures LastNamed(AbiPart(abi, implemented, |abi|), name)
         == if LastNamed(abi, name).Some? && LastNamed(implemented, name).Some? then LastNamed(implemented, name)
            else LastNamed(abi, name)
  {
    hide LastNamed, Names, Distinct;
    var part := AbiPart(abi, implemented, |abi|);
    AbiPartNames(abi, implemented);
    NamedIff(abi, name);
    NamedIff(part, name);
    if name in Names(abi) {
      var i: nat :| i < |abi| && Names(abi)[i] == name;
      NamesAt(abi, i);
      DistinctNamed(part, i);
      EarlierNames(abi, i);
    }
  }

  /** The list is in the order of the ABI, and behind it by name. */
  lemma ComposedOrder(abi: seq<Descriptor>, inventory: seq<Registration>, mask: bv16)
    ensures var all := Composed(abi, inventory, mask);
            && |all| >= |abi| && Names(all[..|abi|]) == Names(abi) && Ascending(all[|abi|..])
  {
    hide Names, LastNamed, Sort, Selected, Extras, Distinct;
    var implemented := Sort(Selected(inventory, mask));
    var part, extras := AbiPart(abi, implemented, |abi|), Extras(implemented, abi);
    AbiPartNames(abi, implemented);
    assert (part + extras)[..|abi|] == part && (part + extras)[|abi|..] == extras;
    SortFacts(Selected(inventory, mask));
    ExtrasSorted(implemented, abi);
    ExtrasDistinct(implemented, abi);
    DistinctAscends(extras);
  }

  lemma {:induction false} SelectedMembers(inventory: seq<Registration>, mask: bv16, d: Descriptor)
    ensures d in Selected(inventory, mask) <==>
              exists r :: r in inventory && InMask(r.scope, mask) && r.descriptor == d
  {
    if inventory != [] {
      SelectedMembers(inventory[1..], mask, d);
      assert inventory == [inventory[0]] + inventory[1..];
      assert Selected(inventory, mask) == (if InMask(inventory[0].scope, mask) then [inventory[0].descriptor] else [])
                                          + Selected(inventory[1..], mask);
    }
  }

  /**
   In terms of the scopes that were asked for: a function of one of them is bound to
   its own descriptor; every other published name to its placeholder, and no other
   name to anything.
   */
  lemma ExpectedMeans(abi: seq<Descriptor>, inventory: seq<Registration>, scopes: seq<Scope>, mask: bv16, name: string)
    requires forall scope :: InMask(scope, mask) <==> scope in scopes
    requires Distinct(Names(abi)) && Distinct(Names(Selected(inventory, mask)))
    ensures forall r :: r in inventory && r.scope in scopes && r.descriptor.name == name ==>
              Expected(abi, inventory, mask, name) == Some(r.descriptor)
    ensures (forall r :: r in inventory && r.scope in scopes ==> r.descriptor.name != name) ==>
              && (forall d :: d in abi && d.name == name ==> Expected(abi, inventory, mask, name) == Some(d))
              && (name !in Names(abi) ==> Expected(abi, inventory, mask, name) == None)
  {
    var own := Selected(inventory, mask);
    hide Selected, InMask, Names, Distinct;
    forall r | r in inventory && r.scope in scopes && r.descriptor.name == name
      ensures LastNamed(own, name) == Some(r.descriptor)
    {
      SelectedMembers(inventory, mask, r.descriptor);
      InByName(own, r.descriptor);
    }
    if LastNamed(own, name).Some? {
      SelectedMembers(inventory, mask, LastNamed(own, name).value);
    }
    NamedIff(abi, name);
    forall d | d in abi && d.name == name
      ensures LastNamed(abi, name) == Some(d)
    {
      InByName(abi, d);
    }
  }

  /** With the ABI's names unique, the composed list has for every name just what is expected. */
  lemma ComposedEntry(abi: seq<Descriptor>, inventory: seq<Registration>, mask: bv16, name: string)
    requires Distinct(Names(abi))
    ensures LastNamed(Composed(abi, inventory, mask), name) == Expected(abi, inventory, mask, name)
  {
    hide LastNamed, Names, Distinct, Selected, Sort, Extras, AbiPart;
    var implemented := Sort(Selected(inventory, mask));
    LastNamedAppend(AbiPart(abi, implemented, |abi|), Extras(implemented, abi), name);
    ExtrasNamed(implemented, abi, name);
    SortKeepsLast(Selected(inventory, mask), name);
    AbiPartNamed(abi, implemented, name);
  }

  /**
   For an ABI and an inventory with unique names: every name occurs once, every
   function in the mask is there, and what else is there is the placeholder of a
   published name that the mask does not implement. So if the ABI's entries are
   unbound and the inventory's are not, unbound are exactly those names.
   */
  lemma Composition(abi: seq<Descriptor>, inventory: seq<Registration>, mask: bv16, d: Descriptor)
    requires Distinct(Names(abi)) && Distinct(Names(Selected(inventory, mask)))
    ensures Distinct(Names(Composed(abi, inventory, mask)))
    ensures var own := Selected(inventory, mask);
            && (d.name in Names(Composed(abi, inventory, mask)) <==> d.name in Names(abi) || d.name in Names(own))
            && (d in Composed(abi, inventory, mask) <==> d in own || (d in abi && d.name !in Names(own)))
            && (Bound(own) && Placeholders(abi) && d in Composed(abi, inventory, mask) ==>
                  (d.adapter == Unbound <==> d.name !in Names(own)))
  {
    var all, own := Composed(abi, inventory, mask), Selected(inventory, mask);
    ComposedNames(abi, inventory, mask);
    ComposedEntry(abi, inventory, mask, d.name);
    NamedIff(all, d.name);
    NamedIff(abi, d.name);
    NamedIff(own, d.name);
    InByName(all, d);
    InByName(own, d);
    InByName(abi, d);
    if d in own {
      var i: nat :| i < |own| && own[i] == d;
      NamesAt(own, i);
    }
  }

  predicate Placeholders(abi: seq<Descriptor>) {
    forall d :: d in abi ==> d.adapter == Unbound
  }

  predicate Bound(own: seq<Descriptor>) {
    forall d :: d in own ==> d.adapter != Unbound
  }

  lemma InByName(s: seq<Descriptor>, d: Descriptor)
    requires Distinct(Names(s))
    ensures d in s <==> LastNamed(s, d.name) == Some(d)
  {
    if d in s {
      var i :| 0 <= i < |s| && s[i] == d;
      DistinctNamed(s, i);
    }
  }

  function Lookup(table: map<string, Descriptor>, name: string): Option<Descriptor> {
    if name in table then Some(table[name]) else None
  }

  lemma EmptyNames()
    ensures Distinct(Names([]))
  {
  }

  /** The values of a table, in the order in which the table happens to give them. */
  method Values(table: map<string, Descriptor>) returns (values: seq<Descriptor>)
    requires forall name :: name in table ==> table[name].name == name
    ensures Distinct(Names(values)) && forall d :: d in values <==> Lookup(table, d.name) == Some(d)
  {
    hide Names, LastNamed, Distinct;
    values := [];
    EmptyNames();
    var rest := table.Keys;
    while rest != {}
      invariant rest <= table.Keys
      invariant forall d :: d in values <==> Lookup(table, d.name) == Some(d) && d.name !in rest
      invariant Distinct(Names(values))
      decreases rest
    {
      var name :| name in rest;
      NamedIff(values, name);
      DistinctSnoc(Names(values), name);
      NamesAppend(values, [table[name]]);
      NamesAt([table[name]], 0);
      assert Names([table[name]]) == [name];
      values := values + [table[name]];
      rest := rest - {name};
    }
  }

  /** A later descriptor of the same name takes the place of an earlier one. */
  method TableOf(implemented: seq<Descriptor>) returns (byName: map<string, Descriptor>)
    ensures forall name :: Lookup(byName, name) == LastNamed(implemented, name)
  {
    hide LastNamed;
    byName := map[];
    forall name
      ensures LastNamed([], name) == None
    {
      NamedIff([], name);
    }
    for i := 0 to |implemented|
      invariant forall name :: Lookup(byName, name) == LastNamed(implemented[..i], name)
    {
      var d := implemented[i];
      assert implemented[..i + 1] == implemented[..i] + [d];
      var next := byName[d.name := d];
      forall name
        ensures Lookup(next, name) == LastNamed(implemented[..i + 1], name)
      {
        LastNamedAppend(implemented[..i], [d], name);
        LastNamedOne(d, name);
        assert Lookup(byName, name) == LastNamed(implemented[..i], name);
      }
      byName := next;
    }
    assert implemented[..|implemented|] == implemented;
  }

  lemma LastNamedOne(d: Descriptor, name: string)
    ensures LastNamed([d], name) == if name == d.name then Some(d) else None
  {
  }

  ghost predicate Remaining(abi: seq<Descriptor>, implemented: seq<Descriptor>, table: map<string, Descriptor>) {
    forall name :: Lookup(table, name) == if name in Names(abi) then None else LastNamed(implemented, name)
  }

  /** Each published name takes its implementation out of the table, or leaves its placeholder. */
  method TakePublished(abi: seq<Descriptor>, implemented: seq<Descriptor>, table: map<string, Descriptor>)
      returns (descriptors: seq<Descriptor>, rest: map<string, Descriptor>)
    requires forall name :: Lookup(table, name) == LastNamed(implemented, name)
    ensures descriptors == AbiPart(abi, implemented, |abi|) && Remaining(abi, implemented, rest)
  {
    hide LastNamed, Names;
    descriptors, rest := [], table;
    for i := 0 to |abi|
      invariant descriptors == AbiPart(abi, implemented, i)
      invariant Remaining(abi[..i], implemented, rest)
    {
      var name := abi[i].name;
      NamedIff(abi, name);
      NamesAt(abi, i);
      NamesSnoc(abi, i);
      assert Lookup(rest, name) == if name in Names(abi[..i]) then None else LastNamed(implemented, name);
      if name in rest {
        descriptors := descriptors + [rest[name]];
        rest := rest - {name};
      } else {
        descriptors := descriptors + [LastNamed(abi, name).value];
      }
    }
    assert abi[..|abi|] == abi;
  }

  lemma NamesSnoc(s: seq<Descriptor>, i: nat)
    requires i < |s|
    ensures Names(s[..i + 1]) == Names(s[..i]) + [s[i].name]
  {
    assert s[..i + 1] == s[..i] + [s[i]];
    NamesAppend(s[..i], [s[i]]);
    NamesAt([s[i]], 0);
  }

  /**
   The composed list, through a table that implementations are put into and taken
   from; it does not depend on the order in which the table gives its values.
   */
  method CompleteScopeDescriptors(abi: seq<Descriptor>, inventory: seq<Registration>, mask: bv16)
      returns (descriptors: seq<Descriptor>)
    ensures descriptors == Composed(abi, inventory, mask)
  {
    hide LastNamed, Names, Distinct, Selected, Sort, Extras, AbiPart;
    var selected := Selected(inventory, mask);
    var implemented := Sort(selected);
    var byName := TableOf(implemented);
    descriptors, byName := TakePublished(abi, implemented, byName);
    forall name | name in byName
      ensures byName[name].name == name
    {
      assert Lookup(byName, name) == LastNamed(implemented, name);
    }
    var extras := Values(byName);
    ExtrasFromTable(abi, selected, byName, extras);
    descriptors := descriptors + Sort(extras);
  }

  lemma ExtrasFromTable(abi: seq<Descriptor>, selected: seq<Descriptor>, byName: map<string, Descriptor>,
                        values: seq<Descriptor>)
    requires Remaining(abi, Sort(selected), byName)
    requires Distinct(Names(values)) && forall d :: d in values <==> Lookup(byName, d.name) == Some(d)
    ensures Sort(values) == Extras(Sort(selected), abi)
  {
    var implemented := Sort(selected);
    SortFacts(selected);
    SortFacts(values);
    SortNames(values);
    DistinctAscends(Sort(values));
    ExtrasSorted(implemented, abi);
    ExtrasDistinct(implemented, abi);
    DistinctAscends(Extras(implemented, abi));
    forall d
      ensures d in Sort(values) <==> d in Extras(implemented, abi)
    {
      assert d in Sort(values) <==> d in multiset(Sort(values));
      assert d in values <==> d in multiset(values);
      NamedIff(abi, d.name);
      ExtrasMembers(implemented, abi, d);
    }
    AscendingUnique(Sort(values), Extras(implemented, abi));
  }
}
