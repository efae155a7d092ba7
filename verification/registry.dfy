/**
 * The per-kind variable tables the controller builds (controller.js:16-26,
 * 395-420): every entry gets a fresh uid from the component scope, and the
 * replace table also keeps the uid-to-name inverse.
 *
 * Babel's `scope.generateUidIdentifier("uid")` is modelled as a counter: the
 * k-th uid minted (from 0) is `_uid` for k = 0 and `_uid<k+1>` afterwards.
 */
module Registry {
  import opened Js
  import opened ConfigDecode
  import opened TemplateVars

  /** The name of the uid minted when the counter stands at `k`. */
  function UidName(k: nat): (r: string)
    ensures |r| >= 4 && r[..4] == "_uid"
  {
    if k == 0 then "_uid" else "_uid" + NatToString(k + 1)
  }

  /** The counter never mints the same name twice. */
  lemma UidNameInjective(j: nat, k: nat)
    ensures UidName(j) == UidName(k) ==> j == k
  {
    if UidName(j) == UidName(k) {
      if j != 0 && k != 0 {
        assert UidName(j)[4..] == NatToString(j + 1);
        assert UidName(k)[4..] == NatToString(k + 1);
        NatToStringInjective(j + 1, k + 1);
      }
    }
  }

  /** `const [ varName ] = entry`: `undefined` is `None`. */
  function EntryName(p: Prop): Option<Value>
  {
    PropName(p)
  }

  /** The object key a name is stored under: `String(name)`. */
  function NameKeyOf(n: Option<Value>): string
  {
    if n.Some? then KeyString(n.value) else "undefined"
  }

  /** Whether an identifier called `name` is registered: `names.includes(name)`. */
  predicate Registered(names: seq<Option<Value>>, name: string)
  {
    Some(VStr(name)) in names
  }

  /** The names, in entry order, duplicates kept. */
  function EntryNames(vars: seq<Prop>): (r: seq<Option<Value>>)
    ensures |r| == |vars|
    ensures forall i :: 0 <= i < |vars| ==> r[i] == EntryName(vars[i])
  {
    if |vars| == 0 then [] else EntryNames(vars[..|vars| - 1]) + [EntryName(vars[|vars| - 1])]
  }

  /** The uid map after the `forEach` has written the entries of `vars`, counting from `next`. */
  function UidTable(vars: seq<Prop>, next: nat): map<string, string>
  {
    if |vars| == 0 then map[]
    else UidTable(vars[..|vars| - 1], next)[NameKeyOf(EntryName(vars[|vars| - 1])) := UidName(next + |vars| - 1)]
  }

  /** The map's domain is exactly the set of entry names. */
  lemma {:induction false} UidTableDomain(vars: seq<Prop>, next: nat)
    ensures forall k :: k in UidTable(vars, next) <==>
      exists i :: 0 <= i < |vars| && NameKeyOf(EntryName(vars[i])) == k
  {
    if |vars| > 0 {
      var last := |vars| - 1;
      var init := vars[..last];
      UidTableDomain(init, next);
      forall k
        ensures k in UidTable(vars, next) <==> exists i :: 0 <= i < |vars| && NameKeyOf(EntryName(vars[i])) == k
      {
        if k != NameKeyOf(EntryName(vars[last])) {
          if exists i :: 0 <= i < |vars| && NameKeyOf(EntryName(vars[i])) == k {
            var i :| 0 <= i < |vars| && NameKeyOf(EntryName(vars[i])) == k;
            assert init[i] == vars[i];
          }
          if k in UidTable(init, next) {
            var i :| 0 <= i < |init| && NameKeyOf(EntryName(init[i])) == k;
            assert init[i] == vars[i];
          }
        }
      }
    }
  }

  /** A repeated name keeps the uid minted for its last occurrence. */
  lemma {:induction false} UidTableLastWins(vars: seq<Prop>, next: nat, i: nat)
    requires i < |vars|
    requires forall j :: i < j < |vars| ==> NameKeyOf(EntryName(vars[j])) != NameKeyOf(EntryName(vars[i]))
    ensures NameKeyOf(EntryName(vars[i])) in UidTable(vars, next)
    ensures UidTable(vars, next)[NameKeyOf(EntryName(vars[i]))] == UidName(next + i)
  {
    var last := |vars| - 1;
    var init := vars[..last];
    var key := NameKeyOf(EntryName(vars[i]));
    assert UidTable(vars, next) == UidTable(init, next)[NameKeyOf(EntryName(vars[last])) := UidName(next + last)];
    if i < last {
      assert init[i] == vars[i];
      forall j | i < j < |init|
        ensures NameKeyOf(EntryName(init[j])) != NameKeyOf(EntryName(init[i]))
      {
        assert init[j] == vars[j];
      }
      UidTableLastWins(init, next, i);
      assert NameKeyOf(EntryName(vars[last])) != key;
    }
  }

  /** Every uid in the map was minted for an entry carrying that key. */
  lemma {:induction false} UidTableOrigin(vars: seq<Prop>, next: nat, k: string)
    requires k in UidTable(vars, next)
    ensures exists i :: 0 <= i < |vars| && NameKeyOf(EntryName(vars[i])) == k && UidTable(vars, next)[k] == UidName(next + i)
  {
    var last := |vars| - 1;
    if NameKeyOf(EntryName(vars[last])) != k {
      var init := vars[..last];
      UidTableOrigin(init, next, k);
      var i :| 0 <= i < |init| && NameKeyOf(EntryName(init[i])) == k && UidTable(init, next)[k] == UidName(next + i);
      assert init[i] == vars[i];
    }
  }

  /**
   * generateVarTypeUids: one uid per entry, in entry order, written under the
   * entry's name; the names list keeps every entry, duplicates included.
   */
  method GenerateVarTypeUids(vars: seq<Prop>, next: nat) returns (mapped: map<string, string>, names: seq<Option<Value>>, after: nat)
    ensures mapped == UidTable(vars, next)
    ensures names == EntryNames(vars)
    ensures |names| == |vars| && forall i :: 0 <= i < |vars| ==> names[i] == EntryName(vars[i])
    ensures forall k :: k in mapped <==> exists i :: 0 <= i < |vars| && NameKeyOf(names[i]) == k
    ensures after == next + |vars|
  {
    mapped := map[];
    names := [];
    after := next;
    var i := 0;
    while i < |vars|
      invariant 0 <= i <= |vars|
      invariant mapped == UidTable(vars[..i], next)
      invariant names == EntryNames(vars[..i])
      invariant after == next + i
    {
      var name := EntryName(vars[i]);
      assert vars[..i + 1][..i] == vars[..i];
      mapped := mapped[NameKeyOf(name) := UidName(after)];
      names := names + [name];
      after := after + 1;
      i := i + 1;
    }
    assert vars[..|vars|] == vars;
    UidTableDomain(vars, next);
  }

  /**
   * `mapInv`: `Object.fromEntries` of the reversed entries of `mapped`,
   * written in the order of `keys`.
   */
  function MapInv(mapped: map<string, string>, keys: seq<string>): map<string, string>
  {
    if |keys| == 0 then map[]
    else
      var inv := MapInv(mapped, keys[..|keys| - 1]);
      var k := keys[|keys| - 1];
      if k in mapped then inv[mapped[k] := k] else inv
  }

  predicate InjectiveOn(mapped: map<string, string>)
  {
    forall a, b :: a in mapped && b in mapped && mapped[a] == mapped[b] ==> a == b
  }

  /** With distinct uids, `mapInv[mapped[n]] == n` for every key, and `mapInv` holds nothing else. */
  lemma {:induction false} MapInvInverts(mapped: map<string, string>, keys: seq<string>)
    requires InjectiveOn(mapped)
    ensures forall k :: k in keys && k in mapped ==> mapped[k] in MapInv(mapped, keys) && MapInv(mapped, keys)[mapped[k]] == k
    ensures forall u :: u in MapInv(mapped, keys) ==> MapInv(mapped, keys)[u] in mapped && mapped[MapInv(mapped, keys)[u]] == u
  {
    if |keys| > 0 {
      var init := keys[..|keys| - 1];
      MapInvInverts(mapped, init);
      assert forall k :: k in keys ==> k in init || k == keys[|keys| - 1];
    }
  }

  /** Distinct names always hold distinct uids, duplicates in the entries or not. */
  lemma UidTableInjective(vars: seq<Prop>, next: nat)
    ensures InjectiveOn(UidTable(vars, next))
  {
    var m := UidTable(vars, next);
    forall a, b | a in m && b in m && m[a] == m[b]
      ensures a == b
    {
      SameUidSameName(vars, next, a, b);
    }
  }

  lemma SameUidSameName(vars: seq<Prop>, next: nat, a: string, b: string)
    requires a in UidTable(vars, next) && b in UidTable(vars, next)
    requires UidTable(vars, next)[a] == UidTable(vars, next)[b]
    ensures a == b
  {
    var i := OriginIndex(vars, next, a);
    var j := OriginIndex(vars, next, b);
    UidNameInjective(next + i, next + j);
  }

  lemma OriginIndex(vars: seq<Prop>, next: nat, k: string) returns (i: nat)
    requires k in UidTable(vars, next)
    ensures i < |vars| && NameKeyOf(EntryName(vars[i])) == k && UidTable(vars, next)[k] == UidName(next + i)
  {
    UidTableOrigin(vars, next, k);
    i :| 0 <= i < |vars| && NameKeyOf(EntryName(vars[i])) == k && UidTable(vars, next)[k] == UidName(next + i);
  }

  /** The replace table's inverse: every uid leads back to the name that owns it. */
  lemma ReplaceMapInv(vars: seq<Prop>, next: nat, i: nat)
    requires i < |vars|
    ensures var m := UidTable(vars, next);
      var key := NameKeyOf(EntryName(vars[i]));
      key in m && m[key] in MapInv(m, Keys(EntryNames(vars))) && MapInv(m, Keys(EntryNames(vars)))[m[key]] == key
  {
    var m := UidTable(vars, next);
    var keys := Keys(EntryNames(vars));
    UidTableInjective(vars, next);
    UidTableDomain(vars, next);
    assert keys[i] == NameKeyOf(EntryName(vars[i]));
    MapInvInverts(m, keys);
  }

  /** The keys the names are stored under, in order. */
  function Keys(names: seq<Option<Value>>): (r: seq<string>)
    ensures |r| == |names|
    ensures forall i :: 0 <= i < |names| ==> r[i] == NameKeyOf(names[i])
  {
    if |names| == 0 then [] else [NameKeyOf(names[0])] + Keys(names[1..])
  }

  /** A variable table as the controllers see it. */
  datatype Vars = Vars(raw: seq<Prop>, mapped: map<string, string>, names: seq<Option<Value>>)

  /** A registered identifier always has a uid to be renamed to. */
  lemma RegisteredHasUid(vars: seq<Prop>, next: nat, name: string)
    requires Registered(EntryNames(vars), name)
    ensures name in UidTable(vars, next)
  {
    UidTableDomain(vars, next);
    var names := EntryNames(vars);
    var i :| 0 <= i < |names| && names[i] == Some(VStr(name));
    assert NameKeyOf(EntryName(vars[i])) == name;
  }

  /** `mapped[name]` as it is assigned to `node.name`: `undefined` when absent. */
  function Lookup(mapped: map<string, string>, name: string): (r: string)
    ensures name in mapped ==> r == mapped[name]
  {
    if name in mapped then mapped[name] else "undefined"
  }

  /** The table `generateVarTypeUids` builds for `raw`, counting from `next`. */
  predicate Minted(v: Vars, next: nat)
  {
    v.mapped == UidTable(v.raw, next) && v.names == EntryNames(v.raw)
  }

  /** No entry is named like one of the uids minted for the table. */
  predicate FreshUids(v: Vars, next: nat)
  {
    forall k :: next <= k < next + |v.raw| ==> !Registered(v.names, UidName(k))
  }

  /** A uid a registered name is renamed to is itself not a registered name. */
  lemma RenamedIsFresh(v: Vars, next: nat, name: string)
    requires Minted(v, next) && FreshUids(v, next)
    requires Registered(v.names, name)
    ensures name in v.mapped && !Registered(v.names, Lookup(v.mapped, name))
  {
    RegisteredHasUid(v.raw, next, name);
    UidTableOrigin(v.raw, next, name);
  }
}
