/** Role tables: all definitions a map has for a selector, chained in one table that is probed by the selector's hash. */
module RoleTables {
  import opened Wrappers
  import opened Probing
  import opened TableSizes

  /** What a role says: the positions and the definition. */
  datatype Content = Content(positions: set<nat>, def: int)

  datatype Role = Role(name: int, content: Content, next: Option<nat>)

  type NameHash = int -> nat

  function Home(hash: NameHash, capacity: nat): Role -> nat
    requires capacity > 0
  {
    (r: Role) => hash(r.name) % capacity
  }

  function Named(name: int): Role -> bool {
    (r: Role) => r.name == name
  }

  /** What follows position i of a chain. */
  function After(c: seq<nat>, i: nat): Option<nat> {
    if i + 1 < |c| then Some(c[i + 1]) else None
  }

  ghost predicate EntriesOf(t: Table<Role>, name: int, c: seq<nat>) {
    forall i | 0 <= i < |c| :: c[i] < |t| && t[c[i]].Some? && t[c[i]].value.name == name
  }

  /** The links lead along c and no further. */
  ghost predicate LinksAlong(t: Table<Role>, c: seq<nat>) {
    forall i | 0 <= i < |c| :: c[i] < |t| && t[c[i]].Some? && t[c[i]].value.next == After(c, i)
  }

  ghost predicate AllDifferent(c: seq<nat>) {
    forall i, j | 0 <= i < j < |c| :: c[i] != c[j]
  }

  ghost predicate HasAll(t: Table<Role>, name: int, c: seq<nat>) {
    forall p | 0 <= p < |t| && t[p].Some? && t[p].value.name == name :: p in c
  }

  /** From the first entry that a lookup of the name finds, the links lead to every entry of that name, once. */
  ghost predicate IsChain(t: Table<Role>, hash: NameHash, name: int, c: seq<nat>)
    requires |t| > 0
  {
    && EntriesOf(t, name, c) && LinksAlong(t, c) && AllDifferent(c) && HasAll(t, name, c)
    && Probe(t, hash(name) % |t|, Named(name), 0) == if c == [] then None else Some(c[0])
  }

  type Chains = map<int, seq<nat>>

  function ChainOf(chains: Chains, name: int): seq<nat> {
    if name in chains then chains[name] else []
  }

  /** Every entry can be reached from its home, and every name's chain is a list of all its entries. */
  ghost predicate TableOk(t: Table<Role>, hash: NameHash, chains: Chains) {
    |t| > 0 && ProbeOk(t, Home(hash, |t|)) && forall name :: IsChain(t, hash, name, ChainOf(chains, name))
  }

  /** What a name's chain says, in the order of its links. */
  function ContentsOf(t: Table<Role>, c: seq<nat>): seq<Content> {
    seq(|c|, i requires 0 <= i < |c| => if c[i] < |t| && t[c[i]].Some? then t[c[i]].value.content else Content({}, 0))
  }

  /** The first i entries' contents for a name, without those of the excluded definition, in the order of the table. */
  function Kept(t: Table<Role>, i: nat, name: int, excluding: Option<int>): seq<Content>
    requires i <= |t|
  {
    if i == 0 then []
    else
      var r := t[i - 1];
      Kept(t, i - 1, name, excluding)
      + if r.Some? && r.value.name == name && Some(r.value.content.def) != excluding then [r.value.content] else []
  }

  /** Equal but for the links. */
  ghost predicate SameButLinks(t: Table<Role>, t': Table<Role>) {
    && |t'| == |t|
    && forall p | 0 <= p < |t| :: (t[p].Some? <==> t'[p].Some?) && (t[p].Some? ==> t'[p].value == t[p].value.(next := t'[p].value.next))
  }

  lemma {:induction false} SameProbeLinks(t: Table<Role>, t': Table<Role>, h: nat, name: int, j: nat)
    requires SameButLinks(t, t') && h < |t| && j <= |t|
    ensures Probe(t', h, Named(name), j) == Probe(t, h, Named(name), j) && FirstFree(t', h, j) == FirstFree(t, h, j)
    decreases |t| - j
  {
    if j < |t| {
      SameProbeLinks(t, t', h, name, j + 1);
    }
  }

  lemma LinksProbeOk(t: Table<Role>, t': Table<Role>, hash: NameHash)
    requires |t| > 0 && SameButLinks(t, t') && ProbeOk(t, Home(hash, |t|))
    ensures ProbeOk(t', Home(hash, |t|))
  {
    var home := Home(hash, |t|);
    forall p | 0 <= p < |t'| && t'[p].Some?
      ensures home(t'[p].value) < |t'| && Occupied(t', home(t'[p].value), Dist(home(t'[p].value), p, |t'|))
    {
      assert home(t'[p].value) == home(t[p].value);
      assert Occupied(t, home(t[p].value), Dist(home(t[p].value), p, |t|));
    }
  }

  /** The table with a new entry at p, linked from the end of the chain of its name. */
  function Linked(t: Table<Role>, c: seq<nat>, p: nat, name: int, content: Content): Table<Role>
    requires p < |t|
  {
    Relinked(t, c, p)[p := Some(Role(name, content, None))]
  }

  function Relinked(t: Table<Role>, c: seq<nat>, p: nat): Table<Role> {
    if c != [] && c[|c| - 1] < |t| && t[c[|c| - 1]].Some? then t[c[|c| - 1] := Some(t[c[|c| - 1]].value.(next := Some(p)))] else t
  }

  /** An insertion keeps every chain: the one of the name has the new entry at its end, and the others are as they were. */
  lemma LinkedOk(t: Table<Role>, hash: NameHash, chains: Chains, p: nat, name: int, content: Content)
    requires TableOk(t, hash, chains) && FirstFree(t, hash(name) % |t|, 0) == Some(p)
    ensures p < |t| && t[p].None?
    ensures TableOk(Linked(t, ChainOf(chains, name), p, name, content), hash, chains[name := ChainOf(chains, name) + [p]])
  {
    var c, r := ChainOf(chains, name), Role(name, content, None);
    var t1, chains' := Relinked(t, c, p), chains[name := c + [p]];
    FreeFinds(t, hash(name) % |t|, 0);
    assert IsChain(t, hash, name, c);
    RelinkedSame(t, c, p);
    LinksProbeOk(t, t1, hash);
    SameProbeLinks(t, t1, hash(name) % |t|, name, 0);
    InsertOk(t1, Home(hash, |t|), r, p);
    hide IsChain, Relinked, Probe, FirstFree;
    forall n ensures IsChain(t1[p := Some(r)], hash, n, ChainOf(chains', n)) {
      LinkedChain(t, hash, chains, p, name, content, n);
    }
  }

  lemma RelinkedSame(t: Table<Role>, c: seq<nat>, p: nat)
    ensures SameButLinks(t, Relinked(t, c, p))
  {
  }

  lemma LinkedChain(t: Table<Role>, hash: NameHash, chains: Chains, p: nat, name: int, content: Content, n: int)
    requires TableOk(t, hash, chains) && FirstFree(t, hash(name) % |t|, 0) == Some(p) && p < |t| && t[p].None?
    ensures IsChain(Linked(t, ChainOf(chains, name), p, name, content), hash, n, ChainOf(chains[name := ChainOf(chains, name) + [p]], n))
  {
    var c, r := ChainOf(chains, name), Role(name, content, None);
    var t1 := Relinked(t, c, p);
    assert IsChain(t, hash, name, c) && IsChain(t, hash, n, ChainOf(chains, n));
    hide IsChain;
    RelinkedSame(t, c, p);
    LinksProbeOk(t, t1, hash);
    SameProbeLinks(t, t1, hash(name) % |t|, name, 0);
    SameProbeLinks(t, t1, hash(n) % |t|, n, 0);
    InsertLookup(t1, Home(hash, |t|), r, p, hash(n) % |t|, Named(n));
    if n == name {
      NewChain(t, hash, name, c, p, content);
    } else {
      OldChain(t, hash, name, c, p, content, n, ChainOf(chains, n));
    }
  }

  lemma NewChain(t: Table<Role>, hash: NameHash, name: int, c: seq<nat>, p: nat, content: Content)
    requires |t| > 0 && IsChain(t, hash, name, c) && p < |t| && t[p].None?
    requires Probe(Linked(t, c, p, name, content), hash(name) % |t|, Named(name), 0)
          == if Probe(t, hash(name) % |t|, Named(name), 0).Some? then Probe(t, hash(name) % |t|, Named(name), 0) else Some(p)
    ensures IsChain(Linked(t, c, p, name, content), hash, name, c + [p])
  {
    hide Probe, EntriesOf, LinksAlong, AllDifferent, HasAll, Linked;
    NotInChain(t, name, c, p);
    NewEntries(t, name, c, p, content);
    NewLinks(t, name, c, p, content);
    NewHasAll(t, name, c, p, content);
    LinkedLength(t, c, p, name, content);
  }

  lemma LinkedLength(t: Table<Role>, c: seq<nat>, p: nat, name: int, content: Content)
    requires p < |t|
    ensures |Linked(t, c, p, name, content)| == |t|
  {
  }

  lemma NotInChain(t: Table<Role>, name: int, c: seq<nat>, p: nat)
    requires EntriesOf(t, name, c) && AllDifferent(c) && p < |t| && t[p].None?
    ensures AllDifferent(c + [p]) && forall i | 0 <= i < |c| :: c[i] != p
  {
    forall i | 0 <= i < |c| ensures c[i] != p {
      assert t[c[i]].Some?;
    }
  }

  lemma NewEntries(t: Table<Role>, name: int, c: seq<nat>, p: nat, content: Content)
    requires EntriesOf(t, name, c) && p < |t| && forall i | 0 <= i < |c| :: c[i] != p
    ensures EntriesOf(Linked(t, c, p, name, content), name, c + [p])
  {
    var t', c' := Linked(t, c, p, name, content), c + [p];
    forall i | 0 <= i < |c'| ensures c'[i] < |t'| && t'[c'[i]].Some? && t'[c'[i]].value.name == name {
      if i < |c| {
        assert c'[i] == c[i];
      }
    }
  }

  lemma NewLinks(t: Table<Role>, name: int, c: seq<nat>, p: nat, content: Content)
    requires LinksAlong(t, c) && AllDifferent(c) && p < |t| && forall i | 0 <= i < |c| :: c[i] != p
    ensures LinksAlong(Linked(t, c, p, name, content), c + [p])
  {
    var t', c' := Linked(t, c, p, name, content), c + [p];
    forall i | 0 <= i < |c'| ensures c'[i] < |t'| && t'[c'[i]].Some? && t'[c'[i]].value.next == After(c', i) {
      if i < |c| - 1 {
        assert c[i] != c[|c| - 1] && t'[c[i]] == t[c[i]];
      }
    }
  }

  lemma NewHasAll(t: Table<Role>, name: int, c: seq<nat>, p: nat, content: Content)
    requires HasAll(t, name, c) && p < |t|
    ensures HasAll(Linked(t, c, p, name, content), name, c + [p])
  {
    var t', c' := Linked(t, c, p, name, content), c + [p];
    forall q | 0 <= q < |t'| && t'[q].Some? && t'[q].value.name == name ensures q in c' {
      if q != p {
        assert t[q].Some? && t[q].value.name == name;
        assert q in c;
      } else {
        assert c'[|c|] == p;
      }
    }
  }

  lemma OldChain(t: Table<Role>, hash: NameHash, name: int, c: seq<nat>, p: nat, content: Content, n: int, d: seq<nat>)
    requires |t| > 0 && IsChain(t, hash, name, c) && IsChain(t, hash, n, d) && n != name && p < |t| && t[p].None?
    requires Probe(Linked(t, c, p, name, content), hash(n) % |t|, Named(n), 0) == Probe(t, hash(n) % |t|, Named(n), 0)
    ensures IsChain(Linked(t, c, p, name, content), hash, n, d)
  {
    hide Probe, EntriesOf, LinksAlong, AllDifferent, HasAll, Linked;
    LinkedLength(t, c, p, name, content);
    SameElsewhere(t, name, c, p, content, n);
    StillChain(t, Linked(t, c, p, name, content), n, d);
  }

  /** Entries of other names are untouched, and none are new. */
  lemma SameElsewhere(t: Table<Role>, name: int, c: seq<nat>, p: nat, content: Content, n: int)
    requires EntriesOf(t, name, c) && p < |t| && t[p].None? && n != name
    ensures forall q | 0 <= q < |t| && t[q].Some? && t[q].value.name == n :: Linked(t, c, p, name, content)[q] == t[q]
    ensures forall q | 0 <= q < |t| && Linked(t, c, p, name, content)[q].Some? && Linked(t, c, p, name, content)[q].value.name == n ::
              t[q].Some? && t[q].value.name == n
  {
  }

  lemma StillChain(t: Table<Role>, t': Table<Role>, n: int, d: seq<nat>)
    requires |t'| == |t| && EntriesOf(t, n, d) && LinksAlong(t, d) && HasAll(t, n, d)
    requires forall q | 0 <= q < |t| && t[q].Some? && t[q].value.name == n :: t'[q] == t[q]
    requires forall q | 0 <= q < |t| && t'[q].Some? && t'[q].value.name == n :: t[q].Some? && t[q].value.name == n
    ensures EntriesOf(t', n, d) && LinksAlong(t', d) && HasAll(t', n, d)
  {
    forall i | 0 <= i < |d| ensures t'[d[i]] == t[d[i]] {
      assert t[d[i]].Some? && t[d[i]].value.name == n;
    }
  }

  lemma LinkedContents(t: Table<Role>, hash: NameHash, chains: Chains, p: nat, name: int, content: Content, n: int)
    requires TableOk(t, hash, chains) && p < |t| && t[p].None?
    ensures ContentsOf(Linked(t, ChainOf(chains, name), p, name, content), ChainOf(chains[name := ChainOf(chains, name) + [p]], n))
         == ContentsOf(t, ChainOf(chains, n)) + if n == name then [content] else []
  {
    var c, d := ChainOf(chains, name), ChainOf(chains, n);
    assert IsChain(t, hash, name, c) && IsChain(t, hash, n, d);
    ChainContents(t, hash, c, p, name, content, n, d);
    hide TableOk, IsChain, Linked;
    if n == name {
      assert ContentsOf(Linked(t, c, p, name, content), d + [p]) == ContentsOf(Linked(t, c, p, name, content), d) + [content] by {
        ContentsMore(Linked(t, c, p, name, content), d, p);
      }
    }
  }

  lemma ContentsMore(t: Table<Role>, d: seq<nat>, p: nat)
    requires p < |t| && t[p].Some?
    ensures ContentsOf(t, d + [p]) == ContentsOf(t, d) + [t[p].value.content]
  {
  }

  lemma ChainContents(t: Table<Role>, hash: NameHash, c: seq<nat>, p: nat, name: int, content: Content, n: int, d: seq<nat>)
    requires |t| > 0 && IsChain(t, hash, n, d) && p < |t| && t[p].None?
    ensures var t' := Linked(t, c, p, name, content);
      |t'| == |t| && t'[p] == Some(Role(name, content, None)) && ContentsOf(t', d) == ContentsOf(t, d)
  {
    hide Probe;
    var t' := Linked(t, c, p, name, content);
    forall i | 0 <= i < |d| ensures t'[d[i]].Some? && t'[d[i]].value.content == t[d[i]].value.content {
      assert t[d[i]].Some?;
    }
  }

  /** The chain of a name and the entries of that name in the order of the table say the same, but for the order. */
  lemma ChainHoldsAll(t: Table<Role>, hash: NameHash, name: int, c: seq<nat>, x: Content)
    requires |t| > 0 && IsChain(t, hash, name, c)
    ensures x in ContentsOf(t, c) <==> x in Kept(t, |t|, name, None)
  {
    hide Probe;
    KeptHas(t, |t|, name, None, x);
    if x in ContentsOf(t, c) {
      var i :| 0 <= i < |c| && ContentsOf(t, c)[i] == x;
      assert t[c[i]].Some? && t[c[i]].value.name == name && t[c[i]].value.content == x;
    }
    if p :| 0 <= p < |t| && t[p].Some? && t[p].value.name == name && t[p].value.content == x {
      assert p in c;
      var i :| 0 <= i < |c| && c[i] == p;
      assert ContentsOf(t, c)[i] == x;
    }
  }

  lemma {:induction false} KeptHas(t: Table<Role>, i: nat, name: int, excluding: Option<int>, x: Content)
    requires i <= |t|
    ensures x in Kept(t, i, name, excluding) <==>
      (Some(x.def) != excluding && exists p :: 0 <= p < i && t[p].Some? && t[p].value.name == name && t[p].value.content == x)
  {
    if i > 0 {
      KeptHas(t, i - 1, name, excluding, x);
    }
  }

  class RoleTable {
    const roles: array<Option<Role>>
    const hash: NameHash
    /** The positions of every name's entries, in the order of their links. */
    ghost var chains: Chains

    ghost predicate Valid()
      reads this, roles
    {
      IsPow2(roles.Length) && TableOk(roles[..], hash, chains)
    }

    /** What the table says for a name. */
    ghost function Contents(name: int): seq<Content>
      reads this, roles
    {
      ContentsOf(roles[..], ChainOf(chains, name))
    }

    constructor (capacity: nat, hash: NameHash)
      ensures roles.Length == capacity && fresh(roles) && this.hash == hash && chains == map[]
      ensures forall p | 0 <= p < capacity :: roles[p].None?
    {
      this.hash := hash;
      roles := new Option<Role>[capacity](i => None);
      chains := map[];
    }

    /** role_table_entry_for_name. */
    method EntryForName(name: int) returns (p: Option<nat>)
      ensures p == if roles.Length == 0 then None else Probe(roles[..], hash(name) % roles.Length, Named(name), 0)
    {
      if roles.Length == 0 {
        return None;
      }
      ghost var t := roles[..];
      var h := hash(name) % roles.Length;
      var index := h;
      while index < roles.Length
        invariant h <= index <= roles.Length && Probe(t, h, Named(name), 0) == Probe(t, h, Named(name), index - h)
      {
        assert At(h, index - h, |t|) == index;
        if roles[index].Some? && roles[index].value.name == name {
          return Some(index);
        }
        if roles[index].None? {
          return None;
        }
        index := index + 1;
      }
      index := 0;
      while index < h
        invariant 0 <= index <= h && Probe(t, h, Named(name), 0) == Probe(t, h, Named(name), index + |t| - h)
      {
        assert At(h, index + |t| - h, |t|) == index;
        if roles[index].Some? && roles[index].value.name == name {
          return Some(index);
        }
        if roles[index].None? {
          return None;
        }
        index := index + 1;
      }
      return None;
    }

    /** role_table_entry_for_inserting_name. */
    method EntryForInsertingName(name: int) returns (p: Option<nat>)
      ensures p == if roles.Length == 0 then None else FirstFree(roles[..], hash(name) % roles.Length, 0)
    {
      if roles.Length == 0 {
        return None;
      }
      ghost var t := roles[..];
      var h := hash(name) % roles.Length;
      var index := h;
      while index < roles.Length
        invariant h <= index <= roles.Length && FirstFree(t, h, 0) == FirstFree(t, h, index - h)
      {
        assert At(h, index - h, |t|) == index;
        if roles[index].None? {
          return Some(index);
        }
        index := index + 1;
      }
      index := 0;
      while index < h
        invariant 0 <= index <= h && FirstFree(t, h, 0) == FirstFree(t, h, index + |t| - h)
      {
        assert At(h, index + |t| - h, |t|) == index;
        if roles[index].None? {
          return Some(index);
        }
        index := index + 1;
      }
      return None;
    }

    /** role_table_insert, and the store of the role's contents into the place it finds. */
    method Insert(name: int, content: Content) returns (p: nat)
      requires roles.Length > 0 && TableOk(roles[..], hash, chains) && Used(roles[..]) < roles.Length
      modifies this`chains, roles
      ensures TableOk(roles[..], hash, chains) && Used(roles[..]) == old(Used(roles[..])) + 1
      ensures p < roles.Length && old(roles[..])[p].None? && roles[..] == Linked(old(roles[..]), old(ChainOf(chains, name)), p, name, content)
      ensures chains == old(chains)[name := old(ChainOf(chains, name)) + [p]]
      ensures forall n :: Contents(n) == old(Contents(n)) + if n == name then [content] else []
    {
      hide Probe, FirstFree, Used, TableOk, IsChain, Linked, ContentsOf;
      ghost var t, c := roles[..], ChainOf(chains, name);
      FreePlace(t, hash, name);
      ChainHead(t, hash, chains, name);
      var chain := EntryForName(name);
      var role := EntryForInsertingName(name);
      p := role.value;
      LinkedOk(t, hash, chains, p, name, content);
      LinkedUsed(t, c, p, name, content);
      Append(chain, p, name, content);
      forall n
        ensures ContentsOf(roles[..], ChainOf(chains[name := c + [p]], n)) == ContentsOf(t, ChainOf(chains, n)) + if n == name then [content] else []
      {
        LinkedContents(t, hash, chains, p, name, content, n);
      }
      chains := chains[name := c + [p]];
    }

    /** The links of role_table_insert: the end of the chain, if there is one, leads to the new entry. */
    method Append(chain: Option<nat>, p: nat, name: int, content: Content)
      requires roles.Length > 0 && TableOk(roles[..], hash, chains) && p < roles.Length
      requires chain == if ChainOf(chains, name) == [] then None else Some(ChainOf(chains, name)[0])
      modifies roles
      ensures roles[..] == Linked(old(roles[..]), ChainOf(chains, name), p, name, content)
    {
      hide Probe, TableOk, IsChain;
      ghost var t, c := roles[..], ChainOf(chains, name);
      if chain.Some? {
        var q := LastOf(chain.value, name);
        roles[q] := Some(roles[q].value.(next := Some(p)));
      }
      assert roles[..] == Relinked(t, c, p);
      roles[p] := Some(Role(name, content, None));
      assert roles[..] == Linked(t, c, p, name, content);
    }

    /** The loop of role_table_insert to the end of a chain: the links lead to every entry once, so it ends. */
    method LastOf(first: nat, name: int) returns (q: nat)
      requires roles.Length > 0 && TableOk(roles[..], hash, chains)
      requires ChainOf(chains, name) != [] && first == ChainOf(chains, name)[0]
      ensures q == ChainOf(chains, name)[|ChainOf(chains, name)| - 1] && q < roles.Length && roles[q].Some?
    {
      hide Probe;
      ghost var c, i := ChainOf(chains, name), 0;
      assert IsChain(roles[..], hash, name, c);
      q := first;
      assert c[i] < |roles[..]| && roles[..][c[i]].Some?;
      ChainNext(roles[..], hash, name, c, i);
      while roles[q].value.next.Some?
        invariant 0 <= i < |c| && q == c[i] && q < roles.Length && roles[q].Some?
        invariant roles[q].value.next == After(c, i)
        decreases |c| - i
      {
        q := roles[q].value.next.value;
        i := i + 1;
        ChainNext(roles[..], hash, name, c, i);
      }
    }

    /** role_table_empty_space. */
    method EmptySpace() returns (space: nat)
      ensures space == roles.Length - Used(roles[..])
    {
      space := 0;
      var i := 0;
      while i < roles.Length
        invariant 0 <= i <= roles.Length && space == i - Used(roles[..i])
      {
        assert roles[..i + 1][..i] == roles[..i];
        if roles[i].None? {
          space := space + 1;
        }
        i := i + 1;
      }
      assert roles[..roles.Length] == roles[..];
    }

    /** Puts a role of the old table into this one, which has a free place for it. */
    method InsertKept(ghost old_: Table<Role>, ghost i: nat, ghost excluding: Option<int>, role: Role)
      requires roles.Length > 0 && TableOk(roles[..], hash, chains) && Used(roles[..]) < roles.Length
      requires i < |old_| && old_[i] == Some(role) && Some(role.content.def) != excluding
      requires KeptSoFar(roles[..], chains, old_, i, excluding)
      modifies this`chains, roles
      ensures TableOk(roles[..], hash, chains) && Used(roles[..]) == old(Used(roles[..])) + 1
      ensures KeptSoFar(roles[..], chains, old_, i + 1, excluding)
    {
      hide Probe, FirstFree, IsChain, TableOk, ContentsOf, Linked, Used;
      ghost var t, c := roles[..], chains;
      assert forall n :: Contents(n) == ContentsOf(t, ChainOf(c, n));
      var p := Insert(role.name, role.content);
      forall n ensures ContentsOf(roles[..], ChainOf(chains, n)) == Kept(old_, i + 1, n, excluding) {
        assert Contents(n) == ContentsOf(t, ChainOf(c, n)) + if n == role.name then [role.content] else [];
      }
    }

    /** role_table_grow_excluding: a new table, with room for n more, of all roles but those of one definition. */
    method GrowExcluding(n: nat, excluding: Option<int>) returns (newRoles: RoleTable)
      requires Valid()
      ensures fresh(newRoles) && fresh(newRoles.roles) && newRoles.hash == hash
      ensures Used(roles[..]) + roles.Length / 3 + n == 0 ==> newRoles.roles.Length == 0
      ensures Used(roles[..]) + roles.Length / 3 + n > 0 ==>
                newRoles.Valid() && IsLeastPow2(newRoles.roles.Length, Used(roles[..]) + roles.Length / 3 + n)
      ensures forall name :: newRoles.Contents(name) == Kept(roles[..], roles.Length, name, excluding)
      ensures Used(newRoles.roles[..]) + n <= newRoles.roles.Length
    {
      assert roles.Length > 0;
      hide Probe, FirstFree, IsChain, TableOk, KeptSoFar, IsLeastPow2;
      var oldSize := roles.Length;
      var space := EmptySpace();
      UsedBound(roles[..]);
      var newSize := Accommodate(oldSize, oldSize / 3 - space + n);
      LeastHolds(newSize, Used(roles[..]) + oldSize / 3 + n);
      newRoles := new RoleTable(newSize, hash);
      EmptyTable(newRoles.roles[..], hash);
      KeptNone(newRoles.roles[..], roles[..], excluding);
      CopyKept(newRoles, excluding);
      KeptAll(newRoles.roles[..], newRoles.chains, roles[..], excluding);
    }

    /** The loop of role_table_grow_excluding. */
    method CopyKept(newRoles: RoleTable, excluding: Option<int>)
      requires newRoles != this && newRoles.roles != roles && newRoles.hash == hash && Used(roles[..]) <= newRoles.roles.Length
      requires Used(newRoles.roles[..]) == 0 && (newRoles.roles.Length > 0 ==> TableOk(newRoles.roles[..], hash, newRoles.chains))
      requires KeptSoFar(newRoles.roles[..], newRoles.chains, roles[..], 0, excluding)
      modifies newRoles`chains, newRoles.roles
      ensures newRoles.roles.Length > 0 ==> TableOk(newRoles.roles[..], hash, newRoles.chains)
      ensures Used(newRoles.roles[..]) <= Used(roles[..])
      ensures KeptSoFar(newRoles.roles[..], newRoles.chains, roles[..], roles.Length, excluding)
    {
      hide Probe, FirstFree, IsChain, TableOk, KeptSoFar;
      ghost var old_ := roles[..];
      var i := 0;
      while i < roles.Length
        invariant 0 <= i <= roles.Length && roles[..] == old_
        invariant newRoles.roles.Length > 0 ==> TableOk(newRoles.roles[..], hash, newRoles.chains)
        invariant Used(newRoles.roles[..]) <= Used(old_[..i])
        invariant KeptSoFar(newRoles.roles[..], newRoles.chains, old_, i, excluding)
      {
        assert old_[..i + 1][..i] == old_[..i];
        UsedBelow(old_, i + 1);
        if roles[i].Some? && Some(roles[i].value.content.def) != excluding {
          newRoles.InsertKept(old_, i, excluding, roles[i].value);
        } else {
          KeptSkips(newRoles.roles[..], newRoles.chains, old_, i, excluding);
        }
        i := i + 1;
      }
      assert old_[..roles.Length] == old_;
    }
  }

  /** A table holds, for every name, what the first i entries of an old one say, without one definition's, in the order of the table. */
  ghost predicate KeptSoFar(t: Table<Role>, chains: Chains, old_: Table<Role>, i: nat, excluding: Option<int>)
    requires i <= |old_|
  {
    forall name :: ContentsOf(t, ChainOf(chains, name)) == Kept(old_, i, name, excluding)
  }

  lemma LeastHolds(size: nat, n: nat)
    ensures IsLeastPow2(size, n) ==> IsPow2(size) && n <= size
  {
  }

  lemma KeptAll(t: Table<Role>, chains: Chains, old_: Table<Role>, excluding: Option<int>)
    requires KeptSoFar(t, chains, old_, |old_|, excluding)
    ensures forall name :: ContentsOf(t, ChainOf(chains, name)) == Kept(old_, |old_|, name, excluding)
  {
  }

  lemma KeptNone(t: Table<Role>, old_: Table<Role>, excluding: Option<int>)
    ensures KeptSoFar(t, map[], old_, 0, excluding)
  {
  }

  lemma KeptSkips(t: Table<Role>, chains: Chains, old_: Table<Role>, i: nat, excluding: Option<int>)
    requires i < |old_| && (old_[i].None? || Some(old_[i].value.content.def) == excluding) && KeptSoFar(t, chains, old_, i, excluding)
    ensures KeptSoFar(t, chains, old_, i + 1, excluding)
  {
  }

  lemma FreePlace(t: Table<Role>, hash: NameHash, name: int)
    requires |t| > 0 && Used(t) < |t|
    ensures FirstFree(t, hash(name) % |t|, 0).Some?
  {
    FreeFinds(t, hash(name) % |t|, 0);
    AllUsed(t);
  }

  lemma ChainHead(t: Table<Role>, hash: NameHash, chains: Chains, name: int)
    requires TableOk(t, hash, chains)
    ensures Probe(t, hash(name) % |t|, Named(name), 0) == if ChainOf(chains, name) == [] then None else Some(ChainOf(chains, name)[0])
  {
    hide Probe;
    assert IsChain(t, hash, name, ChainOf(chains, name));
  }

  lemma ChainNext(t: Table<Role>, hash: NameHash, name: int, c: seq<nat>, i: nat)
    requires |t| > 0 && IsChain(t, hash, name, c) && i < |c|
    ensures c[i] < |t| && t[c[i]].Some? && t[c[i]].value.next == After(c, i)
  {
    hide Probe;
  }

  lemma EmptyTable(t: Table<Role>, hash: NameHash)
    requires forall p | 0 <= p < |t| :: t[p].None?
    ensures Used(t) == 0 && (|t| > 0 ==> TableOk(t, hash, map[]))
    ensures ContentsOf(t, []) == []
  {
    NoneUsed(t);
    if |t| > 0 {
      forall name ensures IsChain(t, hash, name, []) {
        assert At(hash(name) % |t|, 0, |t|) < |t|;
      }
    }
  }

  lemma {:induction false} LinksUsed(t: Table<Role>, t': Table<Role>)
    requires SameButLinks(t, t')
    ensures Used(t') == Used(t)
  {
    if t != [] {
      LinksUsed(t[..|t| - 1], t'[..|t| - 1]);
    }
  }

  lemma LinkedUsed(t: Table<Role>, c: seq<nat>, p: nat, name: int, content: Content)
    requires p < |t| && t[p].None?
    ensures Used(Linked(t, c, p, name, content)) == Used(t) + 1
  {
    LinksUsed(t, Relinked(t, c, p));
    InsertUsed(Relinked(t, c, p), p, Role(name, content, None));
  }
}
