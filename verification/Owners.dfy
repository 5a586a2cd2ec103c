/** `setOwnerReference`: the Group-kind owner references of a CR follow the groups
    that its spec lists. */
module Owners {
  import opened Common

  const GROUP_API_VERSION := "operator.dataverse.redhat.com/v1alpha1"

  predicate IsGroupRef(ref: OwnerRef) {
    ref.kind == "Group" && ref.apiVersion == GROUP_API_VERSION
  }

  function RefTo(store: Groups, name: string): OwnerRef
    requires name in store
  {
    OwnerRef(GROUP_API_VERSION, "Group", name, store[name].uid)
  }

  /** The first loop: one reference per UID, a later group replacing an earlier one. */
  function Desired(store: Groups, names: seq<string>, refs: map<string, OwnerRef>): Result<map<string, OwnerRef>> {
    if names == [] then Ok(refs)
    else if names[0] !in store then Err(MissingGroup(names[0]))
    else Desired(store, names[1..], refs[store[names[0]].uid := RefTo(store, names[0])])
  }

  /** UIDs of the Group-kind references. */
  function GroupUids(refs: seq<OwnerRef>): set<string> {
    set ref | ref in refs && IsGroupRef(ref) :: ref.uid
  }

  function OtherRefs(refs: seq<OwnerRef>): seq<OwnerRef> {
    if refs == [] then []
    else if IsGroupRef(refs[0]) then OtherRefs(refs[1..])
    else [refs[0]] + OtherRefs(refs[1..])
  }

  /** The code's test: different sizes, or some desired UID that is not there. */
  predicate NeedsUpdate(desired: set<string>, existing: set<string>) {
    |desired| != |existing| || exists uid :: uid in desired && uid !in existing
  }

  /** The references to store, or None if no update is needed. `arrange` is the order in
      which Go iterates over the desired references. */
  function NewOwners(
    store: Groups, cr: GroupCR, arrange: set<OwnerRef> -> seq<OwnerRef>): Result<Option<seq<OwnerRef>>>
  {
    match Desired(store, cr.groups, map[])
    case Err(f) => Err(f)
    case Ok(desired) =>
      if !NeedsUpdate(desired.Keys, GroupUids(cr.owners)) then Ok(None)
      else Ok(Some(OtherRefs(cr.owners) + arrange(desired.Values)))
  }

  /** `arrange` lists every set completely and without repetition. */
  ghost predicate Arranges(arrange: set<OwnerRef> -> seq<OwnerRef>) {
    forall s :: Elems(arrange(s)) == s && |arrange(s)| == |s|
  }

  // ---------------------------------------------------------------- properties

  /** UIDs of the stored groups that `names` lists. */
  function UidsOf(store: Groups, names: seq<string>): set<string> {
    set n | n in names && n in store :: store[n].uid
  }

  /** The code's test is set inequality. */
  lemma NeedsUpdateIsInequality(desired: set<string>, existing: set<string>)
    ensures NeedsUpdate(desired, existing) <==> desired != existing
  {
    if !NeedsUpdate(desired, existing) {
      assert |existing - desired| == |existing| - |desired * existing|;
      assert desired * existing == desired;
      assert existing - desired == {};
    }
  }

  /** The reference bears name and UID of a stored group that `names` lists. */
  ghost predicate RefersTo(store: Groups, names: seq<string>, ref: OwnerRef) {
    && ref.kind == "Group" && ref.apiVersion == GROUP_API_VERSION
    && ref.name in names && ref.name in store && store[ref.name].uid == ref.uid
  }

  /** Every desired reference of a call comes from the list. */
  lemma {:induction false} DesiredRefs(
    store: Groups, all: seq<string>, names: seq<string>, refs: map<string, OwnerRef>)
    requires forall n :: n in names ==> n in all
    requires forall uid :: uid in refs ==> RefersTo(store, all, refs[uid])
    ensures Desired(store, names, refs).Ok? ==>
      forall uid :: uid in Desired(store, names, refs).value ==>
        RefersTo(store, all, Desired(store, names, refs).value[uid])
  {
    if names != [] && names[0] in store {
      DesiredRefs(store, all, names[1..], refs[store[names[0]].uid := RefTo(store, names[0])]);
    }
  }

  lemma {:induction false} DesiredUids(store: Groups, names: seq<string>, refs: map<string, OwnerRef>)
    requires forall uid :: uid in refs ==> IsGroupRef(refs[uid]) && refs[uid].uid == uid
    ensures Desired(store, names, refs).Ok? <==> forall n :: n in names ==> n in store
    ensures Desired(store, names, refs).Ok? ==>
      var d := Desired(store, names, refs).value;
      && d.Keys == refs.Keys + UidsOf(store, names)
      && forall uid :: uid in d ==> IsGroupRef(d[uid]) && d[uid].uid == uid
  {
    if names != [] && names[0] in store {
      var refs' := refs[store[names[0]].uid := RefTo(store, names[0])];
      DesiredUids(store, names[1..], refs');
      assert UidsOf(store, names) == {store[names[0]].uid} + UidsOf(store, names[1..]);
    }
  }

  lemma {:induction false} OtherRefsConcat(a: seq<OwnerRef>, b: seq<OwnerRef>)
    ensures OtherRefs(a + b) == OtherRefs(a) + OtherRefs(b)
  {
    if a == [] {
      assert a + b == b;
    } else {
      assert (a + b)[1..] == a[1..] + b;
      OtherRefsConcat(a[1..], b);
    }
  }

  lemma {:induction false} OtherRefsIdempotent(refs: seq<OwnerRef>)
    ensures OtherRefs(OtherRefs(refs)) == OtherRefs(refs)
    ensures forall ref :: ref in OtherRefs(refs) ==> !IsGroupRef(ref)
  {
    if refs != [] {
      OtherRefsIdempotent(refs[1..]);
      if !IsGroupRef(refs[0]) { OtherRefsConcat([refs[0]], OtherRefs(refs[1..])); }
    }
  }

  /** Which references are kept: those that are not of kind Group of the operator's own API. */
  lemma {:induction false} OtherRefsExact(refs: seq<OwnerRef>, ref: OwnerRef)
    ensures multiset(OtherRefs(refs))[ref] ==
      if ref.kind == "Group" && ref.apiVersion == "operator.dataverse.redhat.com/v1alpha1" then 0
      else multiset(refs)[ref]
  {
    if refs != [] {
      OtherRefsExact(refs[1..], ref);
      assert refs == [refs[0]] + refs[1..];
    }
  }

  lemma {:induction false} AllGroupRefs(refs: seq<OwnerRef>)
    requires forall ref :: ref in refs ==> IsGroupRef(ref)
    ensures OtherRefs(refs) == []
  {
    if refs != [] {
      assert refs[0] in refs;
      AllGroupRefs(refs[1..]);
    }
  }

  lemma ArrangedRefs(desired: map<string, OwnerRef>, arrange: set<OwnerRef> -> seq<OwnerRef>, others: seq<OwnerRef>)
    requires Arranges(arrange)
    requires forall uid :: uid in desired ==> IsGroupRef(desired[uid]) && desired[uid].uid == uid
    requires forall ref :: ref in others ==> !IsGroupRef(ref)
    ensures GroupUids(others + arrange(desired.Values)) == desired.Keys
    ensures OtherRefs(arrange(desired.Values)) == []
  {
    var listed := arrange(desired.Values);
    assert forall ref :: ref in listed <==> ref in Elems(listed);
    assert forall ref :: ref in listed <==> exists uid :: uid in desired && desired[uid] == ref;
    AllGroupRefs(listed);
    forall uid | uid in desired
      ensures uid in GroupUids(others + listed)
    {
      assert desired[uid] in listed;
      assert desired[uid] in others + listed;
    }
  }

  /** The other references first, then one reference for each UID, which bears the name and the
      UID of a stored group that the spec lists. */
  ghost predicate Written(store: Groups, names: seq<string>, others: seq<OwnerRef>, refs: seq<OwnerRef>) {
    && others <= refs
    && |refs| == |others| + |UidsOf(store, names)|
    && (forall i :: |others| <= i < |refs| ==> RefersTo(store, names, refs[i]))
    && (forall i, j :: |others| <= i < j < |refs| ==> refs[i].uid != refs[j].uid)
  }

  /** What an update stores. */
  lemma WrittenOwners(store: Groups, cr: GroupCR, arrange: set<OwnerRef> -> seq<OwnerRef>)
    requires Arranges(arrange)
    ensures
      var r := NewOwners(store, cr, arrange);
      r.Ok? && r.value.Some? ==> Written(store, cr.groups, OtherRefs(cr.owners), r.value.value)
  {
    var d := Desired(store, cr.groups, map[]);
    if d.Ok? {
      DesiredUids(store, cr.groups, map[]);
      DesiredRefs(store, cr.groups, cr.groups, map[]);
      ListedRefs(store, cr.groups, OtherRefs(cr.owners), d.value, arrange(d.value.Values));
    }
  }

  lemma ListedRefs(
    store: Groups, names: seq<string>, others: seq<OwnerRef>, d: map<string, OwnerRef>, listed: seq<OwnerRef>)
    requires Elems(listed) == d.Values && |listed| == |d.Values| && d.Keys == UidsOf(store, names)
    requires forall uid :: uid in d ==> RefersTo(store, names, d[uid]) && d[uid].uid == uid
    ensures Written(store, names, others, others + listed)
  {
    ValuesCounted(d);
    ListedOnce(listed);
    forall i | 0 <= i < |listed|
      ensures exists uid :: uid in d && d[uid] == listed[i]
    {
      assert listed[i] in Elems(listed);
    }
    assert forall i :: |others| <= i < |others + listed| ==> (others + listed)[i] == listed[i - |others|];
  }

  /** As many references as UIDs. */
  lemma {:induction false} ValuesCounted(d: map<string, OwnerRef>)
    requires forall uid :: uid in d ==> d[uid].uid == uid
    ensures |d.Values| == |d.Keys|
    decreases |d|
  {
    if d != map[] {
      var uid :| uid in d;
      var rest := d - {uid};
      ValuesCounted(rest);
      assert d.Keys == rest.Keys + {uid};
      assert d.Values == rest.Values + {d[uid]} by {
        forall ref | ref in d.Values
          ensures ref in rest.Values + {d[uid]}
        {
          var u :| u in d && d[u] == ref;
          assert u == uid || (u in rest && rest[u] == ref);
        }
      }
    }
  }

  /** A list with as many elements as its length repeats none. */
  lemma {:induction false} ListedOnce(refs: seq<OwnerRef>)
    ensures |Elems(refs)| <= |refs|
    ensures |Elems(refs)| == |refs| ==> forall i, j :: 0 <= i < j < |refs| ==> refs[i] != refs[j]
  {
    if refs != [] {
      var rest := refs[1..];
      ListedOnce(rest);
      assert Elems(refs) == {refs[0]} + Elems(rest);
      if |Elems(refs)| == |refs| {
        assert refs[0] !in Elems(rest);
        assert forall i :: 0 < i < |refs| ==> refs[i] == rest[i - 1] && refs[i] in Elems(rest);
      }
    }
  }

  /** On success the Group-kind references name exactly the listed groups, every other
      reference is kept in order, an update happens exactly when the UIDs differed, and
      a further call with the stored result asks for none. */
  lemma OwnersFollowSpec(store: Groups, cr: GroupCR, arrange: set<OwnerRef> -> seq<OwnerRef>)
    requires Arranges(arrange)
    ensures NewOwners(store, cr, arrange).Err? <==> exists n :: n in cr.groups && n !in store
    ensures NewOwners(store, cr, arrange).Ok? ==>
      var r := NewOwners(store, cr, arrange).value;
      var refs := if r.Some? then r.value else cr.owners;
      && (r.Some? <==> GroupUids(cr.owners) != UidsOf(store, cr.groups))
      && GroupUids(refs) == UidsOf(store, cr.groups)
      && OtherRefs(refs) == OtherRefs(cr.owners)
      && NewOwners(store, cr.(owners := refs), arrange) == Ok(None)
  {
    DesiredUids(store, cr.groups, map[]);
    var d := Desired(store, cr.groups, map[]);
    if d.Ok? {
      NeedsUpdateIsInequality(d.value.Keys, GroupUids(cr.owners));
      OtherRefsIdempotent(cr.owners);
      ArrangedRefs(d.value, arrange, OtherRefs(cr.owners));
      OtherRefsConcat(OtherRefs(cr.owners), arrange(d.value.Values));
      NeedsUpdateIsInequality(d.value.Keys, d.value.Keys);
    }
  }
}
