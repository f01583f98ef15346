/** The condition lists kept in an import's status (pkg/util/conditions.go). */
module Conditions {
  import opened Wrappers

  /** The condition types the controller writes; any other string is OtherType. */
  datatype CondType =
    | ShutdownGuest
    | PoweringOff
    | PoweredOff
    | Exported
    | ExportFailed
    | ImageSubmitted
    | ImageReady
    | ImageFailed
    | OtherType(name: string)

  datatype CondStatus = ConditionTrue | ConditionFalse | ConditionUnknown

  /** A timestamp as it is stored: RFC 3339 text keeps whole seconds only. */
  datatype Stamp = At(second: nat) | Malformed

  datatype Condition = Condition(
    ctype: CondType, status: CondStatus, updated: Stamp, transitioned: Stamp, reason: string, message: string)

  /** The first entry with the given type and status. */
  function Find(cs: seq<Condition>, t: CondType, s: CondStatus): (r: Option<Condition>)
    ensures r.Some? ==> r.value in cs && r.value.ctype == t && r.value.status == s
  {
    if cs == [] then None
    else if cs[0].ctype == t && cs[0].status == s then Some(cs[0])
    else Find(cs[1..], t, s)
  }

  /** The condition is present and true, the only question the reconciler asks. */
  predicate Has(cs: seq<Condition>, t: CondType) {
    Find(cs, t, ConditionTrue).Some?
  }

  predicate HasType(cs: seq<Condition>, t: CondType) {
    exists i :: 0 <= i < |cs| && cs[i].ctype == t
  }

  /** Every entry of the new condition's type is overwritten. */
  function Rewrite(cs: seq<Condition>, c: Condition): (r: seq<Condition>)
    ensures |r| == |cs|
    ensures forall i :: 0 <= i < |cs| ==> r[i] == if cs[i].ctype == c.ctype then c else cs[i]
  {
    if cs == [] then [] else [if cs[0].ctype == c.ctype then c else cs[0]] + Rewrite(cs[1..], c)
  }

  function Put(cs: seq<Condition>, c: Condition): seq<Condition> {
    if HasType(cs, c.ctype) then Rewrite(cs, c) else cs + [c]
  }

  function PutAll(cs: seq<Condition>, news: seq<Condition>): seq<Condition>
    decreases |news|
  {
    if news == [] then cs else PutAll(Put(cs, news[0]), news[1..])
  }

  function Drop(cs: seq<Condition>, t: CondType, s: CondStatus): seq<Condition> {
    if cs == [] then []
    else (if cs[0].ctype == t && cs[0].status == s then [] else [cs[0]]) + Drop(cs[1..], t, s)
  }

  // ---------------------------------------------------------------- the source's loops

  /** The entry at i is the first with this type and status. */
  predicate FirstAt(cs: seq<Condition>, t: CondType, s: CondStatus, i: nat)
    requires i < |cs|
  {
    cs[i].ctype == t && cs[i].status == s && forall j :: 0 <= j < i ==> cs[j].ctype != t || cs[j].status != s
  }

  method GetCondition(cs: seq<Condition>, t: CondType, s: CondStatus) returns (r: Option<Condition>)
    ensures r == Find(cs, t, s)
    ensures r.Some? ==> exists i :: 0 <= i < |cs| && cs[i] == r.value && FirstAt(cs, t, s, i)
    ensures r.None? ==> forall i :: 0 <= i < |cs| ==> cs[i].ctype != t || cs[i].status != s
  {
    for i := 0 to |cs|
      invariant Find(cs, t, s) == Find(cs[i..], t, s)
      invariant forall j :: 0 <= j < i ==> cs[j].ctype != t || cs[j].status != s
    {
      if cs[i].ctype == t && cs[i].status == s {
        assert FirstAt(cs, t, s, i);
        return Some(cs[i]);
      }
    }
    return None;
  }

  method ConditionExists(cs: seq<Condition>, t: CondType, s: CondStatus) returns (found: bool)
    ensures found == Find(cs, t, s).Some?
    ensures found <==> exists i :: 0 <= i < |cs| && cs[i].ctype == t && cs[i].status == s
  {
    for i := 0 to |cs|
      invariant Find(cs, t, s) == Find(cs[i..], t, s)
      invariant forall j :: 0 <= j < i ==> cs[j].ctype != t || cs[j].status != s
    {
      if cs[i].ctype == t && cs[i].status == s {
        return true;
      }
    }
    return false;
  }

  method AddOrUpdateCondition(conditions: seq<Condition>, newCond: Condition) returns (cs: seq<Condition>)
    ensures cs == Put(conditions, newCond)
  {
    cs := conditions;
    var found := false;
    for i := 0 to |cs|
      invariant |cs| == |conditions|
      invariant found ==> HasType(conditions, newCond.ctype)
      invariant !found ==> forall j :: 0 <= j < i ==> conditions[j].ctype != newCond.ctype
      invariant forall j :: 0 <= j < i ==>
        cs[j] == if conditions[j].ctype == newCond.ctype then newCond else conditions[j]
      invariant forall j :: i <= j < |cs| ==> cs[j] == conditions[j]
    {
      if cs[i].ctype == newCond.ctype {
        found := true;
        cs := cs[i := cs[i].(status := newCond.status, updated := newCond.updated,
          transitioned := newCond.transitioned, reason := newCond.reason, message := newCond.message)];
      }
    }
    if !found {
      assert cs == conditions;
      cs := cs + [newCond];
    } else {
      assert cs == Rewrite(conditions, newCond);
    }
  }

  method MergeConditions(srcConditions: seq<Condition>, newCond: seq<Condition>) returns (cs: seq<Condition>)
    ensures cs == PutAll(srcConditions, newCond)
  {
    cs := srcConditions;
    for i := 0 to |newCond|
      invariant PutAll(srcConditions, newCond) == PutAll(cs, newCond[i..])
    {
      cs := AddOrUpdateCondition(cs, newCond[i]);
    }
  }

  method RemoveCondition(conditions: seq<Condition>, t: CondType, s: CondStatus) returns (ret: seq<Condition>)
    ensures ret == Drop(conditions, t, s) && KeepsOthers(conditions, ret, t, s)
  {
    ret := [];
    for i := 0 to |conditions|
      invariant Drop(conditions, t, s) == ret + Drop(conditions[i..], t, s)
    {
      assert conditions[i..][0] == conditions[i] && conditions[i..][1..] == conditions[i + 1..];
      if conditions[i].ctype != t || conditions[i].status != s {
        Assoc(ret, [conditions[i]], Drop(conditions[i + 1..], t, s));
        ret := ret + [conditions[i]];
      }
    }
    DropMeans(conditions, t, s);
  }

  /** The entries of another type or status, in order. */
  ghost predicate KeepsOthers(cs: seq<Condition>, kept: seq<Condition>, t: CondType, s: CondStatus) {
    Selects(cs, kept, (c: Condition) => c.ctype != t || c.status != s)
  }

  lemma {:induction false} DropNext(cs: seq<Condition>, c: Condition, t: CondType, s: CondStatus)
    ensures Drop(cs + [c], t, s) == Drop(cs, t, s) + if c.ctype == t && c.status == s then [] else [c]
  {
    var whole := cs + [c];
    if cs == [] {
      assert whole[1..] == [] && Drop([], t, s) == [];
    } else {
      assert whole[1..] == cs[1..] + [c] && whole[0] == cs[0];
      DropNext(cs[1..], c, t, s);
      Assoc(if cs[0].ctype == t && cs[0].status == s then [] else [cs[0]], Drop(cs[1..], t, s),
            if c.ctype == t && c.status == s then [] else [c]);
    }
  }

  lemma {:induction false} DropMeans(cs: seq<Condition>, t: CondType, s: CondStatus)
    ensures KeepsOthers(cs, Drop(cs, t, s), t, s)
  {
    if cs != [] {
      var init, last := cs[..|cs| - 1], cs[|cs| - 1];
      DropMeans(init, t, s);
      DropNext(init, last, t, s);
      SelectsNext(init, Drop(init, t, s), last, (c: Condition) => c.ctype != t || c.status != s);
      assert cs == init + [last];
    }
  }

  // ---------------------------------------------------------------- what they mean

  /** An update answers every later lookup: the new condition under its own type, the old answer elsewhere. */
  lemma {:induction false} FindPut(cs: seq<Condition>, c: Condition, t: CondType, s: CondStatus)
    ensures Find(Put(cs, c), t, s) ==
            if t != c.ctype then Find(cs, t, s) else if s == c.status then Some(c) else None
  {
    if HasType(cs, c.ctype) {
      FindRewrite(cs, c, t, s);
      if t == c.ctype && s == c.status {
        var i :| 0 <= i < |cs| && cs[i].ctype == t;
        FindSome(Rewrite(cs, c), i);
      }
    } else {
      FindAppend(cs, c, t, s);
    }
  }

  lemma {:induction false} FindSome(cs: seq<Condition>, i: nat)
    requires i < |cs|
    ensures Find(cs, cs[i].ctype, cs[i].status).Some?
  {
    if i > 0 {
      FindSome(cs[1..], i - 1);
    }
  }

  lemma {:induction false} FindRewrite(cs: seq<Condition>, c: Condition, t: CondType, s: CondStatus)
    ensures t != c.ctype ==> Find(Rewrite(cs, c), t, s) == Find(cs, t, s)
    ensures t == c.ctype && s != c.status ==> Find(Rewrite(cs, c), t, s) == None
  {
    if cs != [] {
      FindRewrite(cs[1..], c, t, s);
      FindCons(if cs[0].ctype == c.ctype then c else cs[0], Rewrite(cs[1..], c), t, s);
    }
  }

  lemma {:induction false} FindAppend(cs: seq<Condition>, c: Condition, t: CondType, s: CondStatus)
    ensures Find(cs + [c], t, s) ==
            if Find(cs, t, s).Some? then Find(cs, t, s)
            else if c.ctype == t && c.status == s then Some(c) else None
  {
    if cs != [] {
      FindAppend(cs[1..], c, t, s);
      assert (cs + [c])[1..] == cs[1..] + [c];
    }
  }

  lemma FindCons(c: Condition, cs: seq<Condition>, t: CondType, s: CondStatus)
    ensures Find([c] + cs, t, s) == if c.ctype == t && c.status == s then Some(c) else Find(cs, t, s)
  {
    assert ([c] + cs)[1..] == cs;
  }

  /** Removal takes away exactly the given (type, status) pair. */
  lemma {:induction false} FindDrop(cs: seq<Condition>, t0: CondType, s0: CondStatus, t: CondType, s: CondStatus)
    ensures Find(Drop(cs, t0, s0), t, s) == if t == t0 && s == s0 then None else Find(cs, t, s)
  {
    if cs != [] {
      FindDrop(cs[1..], t0, s0, t, s);
      var rest := Drop(cs[1..], t0, s0);
      if cs[0].ctype == t0 && cs[0].status == s0 {
        assert Drop(cs, t0, s0) == [] + rest == rest;
      } else {
        FindCons(cs[0], rest, t, s);
      }
    }
  }

  // ---------------------------------------------------------------- lists as maps

  ghost predicate Unique(cs: seq<Condition>) {
    forall i, j :: 0 <= i < j < |cs| ==> cs[i].ctype != cs[j].ctype
  }

  /** The map a list of distinct types stands for (the last entry wins otherwise). */
  ghost function AsMap(cs: seq<Condition>): map<CondType, Condition> {
    if cs == [] then map[] else AsMap(cs[..|cs| - 1])[cs[|cs| - 1].ctype := cs[|cs| - 1]]
  }

  /** The types a list already holds stay in place, in order; new ones come after them. */
  ghost predicate KeepsTypes(before: seq<Condition>, after: seq<Condition>) {
    |before| <= |after| && forall i :: 0 <= i < |before| ==> after[i].ctype == before[i].ctype
  }

  lemma {:induction false} AsMapKeys(cs: seq<Condition>, t: CondType)
    ensures t in AsMap(cs) <==> HasType(cs, t)
  {
    if cs != [] {
      var front := cs[..|cs| - 1];
      AsMapKeys(front, t);
      if HasType(cs, t) && cs[|cs| - 1].ctype != t {
        var i :| 0 <= i < |cs| && cs[i].ctype == t;
        assert front[i].ctype == t;
      }
    }
  }

  lemma {:induction false} AsMapRewrite(cs: seq<Condition>, c: Condition)
    ensures AsMap(Rewrite(cs, c)) == if c.ctype in AsMap(cs) then AsMap(cs)[c.ctype := c] else AsMap(cs)
  {
    if cs != [] {
      var front, last := cs[..|cs| - 1], cs[|cs| - 1];
      AsMapRewrite(front, c);
      RewriteFront(cs, c);
      OverwriteLast(AsMap(front), c, last);
    }
  }

  lemma OverwriteLast(m: map<CondType, Condition>, c: Condition, last: Condition)
    ensures var rewritten := if c.ctype in m then m[c.ctype := c] else m;
            var x := if last.ctype == c.ctype then c else last;
            var whole := m[last.ctype := last];
            rewritten[x.ctype := x] == if c.ctype in whole then whole[c.ctype := c] else whole
  {
  }

  lemma RewriteFront(cs: seq<Condition>, c: Condition)
    requires cs != []
    ensures Rewrite(cs, c)[..|cs| - 1] == Rewrite(cs[..|cs| - 1], c)
  {
  }

  lemma PutIsMapUpdate(cs: seq<Condition>, c: Condition)
    ensures AsMap(Put(cs, c)) == AsMap(cs)[c.ctype := c]
  {
    if HasType(cs, c.ctype) {
      AsMapRewrite(cs, c);
      AsMapKeys(cs, c.ctype);
    } else {
      assert (cs + [c])[..|cs|] == cs;
    }
  }

  /** Without any assumption on uniqueness, an update rewrites every entry of its type and no other. */
  lemma PutRewritesItsType(cs: seq<Condition>, c: Condition)
    ensures KeepsTypes(cs, Put(cs, c))
    ensures forall i :: 0 <= i < |cs| ==> Put(cs, c)[i] == if cs[i].ctype == c.ctype then c else cs[i]
    ensures forall i :: |cs| <= i < |Put(cs, c)| ==> i == |cs| && Put(cs, c)[i] == c && !HasType(cs, c.ctype)
    ensures Unique(cs) ==> Unique(Put(cs, c))
  {
  }

  /** Merging is map override. */
  lemma {:induction false} MergeIsMapOverride(cs: seq<Condition>, news: seq<Condition>)
    ensures AsMap(PutAll(cs, news)) == AsMap(cs) + AsMap(news)
    decreases |news|
  {
    if news != [] {
      PutIsMapUpdate(cs, news[0]);
      MergeIsMapOverride(Put(cs, news[0]), news[1..]);
      AsMapHead(news);
      OverrideOne(AsMap(cs), news[0], AsMap(news[1..]));
    }
  }

  lemma OverrideOne(m: map<CondType, Condition>, c: Condition, rest: map<CondType, Condition>)
    ensures m[c.ctype := c] + rest == m + (map[c.ctype := c] + rest)
  {
  }

  /** Merging keeps uniqueness and the order of the types already listed. */
  lemma {:induction false} MergeKeepsOrder(cs: seq<Condition>, news: seq<Condition>)
    ensures KeepsTypes(cs, PutAll(cs, news))
    ensures Unique(cs) ==> Unique(PutAll(cs, news))
    decreases |news|
  {
    if news != [] {
      PutRewritesItsType(cs, news[0]);
      MergeKeepsOrder(Put(cs, news[0]), news[1..]);
    }
  }

  lemma {:induction false} AsMapHead(cs: seq<Condition>)
    requires cs != []
    ensures AsMap(cs) == map[cs[0].ctype := cs[0]] + AsMap(cs[1..])
  {
    if |cs| == 1 {
      assert cs[..0] == [] && cs[1..] == [];
    } else {
      var front := cs[..|cs| - 1];
      AsMapHead(front);
      assert front[1..] == cs[1..][..|cs| - 2];
    }
  }

  /** A single-condition merge, the only form the controller uses. */
  lemma MergeOne(cs: seq<Condition>, c: Condition)
    ensures PutAll(cs, [c]) == Put(cs, c)
  {
    assert [c][1..] == [];
    assert PutAll(Put(cs, c), []) == Put(cs, c);
  }
}
