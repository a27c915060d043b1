/**
 The model registry: models by identity, and for each feature set the primary that serves and
 the shadows under evaluation, kept as redundant indexes; and the promoter that swaps the
 primary for the best challenger.
 */
module Registries {

  datatype Metadata = Metadata(id: string, featureSet: string)

  datatype Entry = Entry(metadata: Metadata, model: string)

  datatype Validation = Validation(expiresAt: int, passed: bool) {
    predicate Current(now: int) {
      passed && expiresAt > now
    }
  }

  datatype State = State(byId: map<string, Entry>, primary: map<string, string>, shadows: map<string, seq<string>>,
                         validations: map<string, Validation>)

  const Empty := State(map[], map[], map[], map[])

  predicate WellFormed(m: Metadata) {
    m.id != "" && m.featureSet != "" && '@' in m.id && ':' in m.featureSet
  }

  predicate Validated(s: State, id: string, now: int) {
    id in s.validations && s.validations[id].Current(now)
  }

  // The operations on values

  function Without(ids: seq<string>, id: string): seq<string> {
    if |ids| == 0 then [] else if ids[0] == id then ids[1..] else [ids[0]] + Without(ids[1..], id)
  }

  /** No index mentions the model any more; a shadow list that becomes empty goes away. */
  function Scrubbed(s: State, id: string): State {
    s.(primary := map f | f in s.primary && s.primary[f] != id :: s.primary[f], shadows := ScrubbedShadows(s.shadows, id))
  }

  function ScrubbedShadows(shadows: map<string, seq<string>>, id: string): map<string, seq<string>> {
    map f | f in shadows && !(id in shadows[f] && |shadows[f]| == 1) ::
      if id in shadows[f] then Without(shadows[f], id) else shadows[f]
  }

  function Listed(shadows: map<string, seq<string>>, f: string): seq<string> {
    if f in shadows then shadows[f] else []
  }

  /** Whether `register` accepts. */
  predicate Accepts(s: State, e: Entry, primary: bool, now: int) {
    WellFormed(e.metadata) && (primary ==> Validated(s, e.metadata.id, now))
  }

  function Registered(s: State, e: Entry, primary: bool): State {
    var m := e.metadata;
    var scrubbed := if m.id in s.byId then Scrubbed(s, m.id) else s;
    var stored := scrubbed.(byId := s.byId[m.id := e]);
    if primary then stored.(primary := stored.primary[m.featureSet := m.id])
    else if m.id in Listed(stored.shadows, m.featureSet) then stored
    else stored.(shadows := stored.shadows[m.featureSet := Listed(stored.shadows, m.featureSet) + [m.id]])
  }

  function Unregistered(s: State, id: string): State {
    if id !in s.byId then s else Scrubbed(s, id).(byId := s.byId - {id})
  }

  // What every operation keeps

  ghost predicate Distinct(ids: seq<string>) {
    forall i, j :: 0 <= i < j < |ids| ==> ids[i] != ids[j]
  }

  ghost predicate Serves(s: State, f: string, id: string) {
    id in s.byId && s.byId[id].metadata.featureSet == f
  }

  ghost predicate PrimariesSound(s: State) {
    forall f :: f in s.primary ==> Serves(s, f, s.primary[f])
  }

  ghost predicate ShadowsSound(s: State) {
    && (forall f :: f in s.shadows ==> s.shadows[f] != [] && Distinct(s.shadows[f]))
    && (forall f, id :: f in s.shadows && id in s.shadows[f] ==> Serves(s, f, id))
  }

  /** No model is both primary and shadow. */
  ghost predicate OneRole(s: State) {
    forall f :: f in s.primary ==> s.primary[f] !in Listed(s.shadows, f)
  }

  ghost predicate Keyed(s: State) {
    forall id :: id in s.byId ==> s.byId[id].metadata.id == id && WellFormed(s.byId[id].metadata)
  }

  ghost predicate Inv(s: State) {
    PrimariesSound(s) && ShadowsSound(s) && OneRole(s) && Keyed(s)
  }

  lemma {:induction false} WithoutMeaning(ids: seq<string>, id: string)
    requires Distinct(ids)
    ensures Distinct(Without(ids, id)) && id !in Without(ids, id)
    ensures forall other :: other != id ==> (other in Without(ids, id) <==> other in ids)
    ensures id in ids ==> |Without(ids, id)| == |ids| - 1
  {
    if |ids| > 0 {
      assert ids == [ids[0]] + ids[1..];
      WithoutMeaning(ids[1..], id);
      assert ids[0] !in ids[1..];
      if ids[0] != id {
        assert ids[0] !in Without(ids[1..], id);
      }
    }
  }

  /** The model appears in no index. */
  ghost predicate Roleless(s: State, id: string) {
    (forall f :: f in s.primary ==> s.primary[f] != id) && (forall f :: id !in Listed(s.shadows, f))
  }

  /** Both indexes are as before except for this one model. */
  ghost predicate Dropped(s: State, n: State, id: string) {
    && (forall f :: f in n.primary <==> f in s.primary && s.primary[f] != id)
    && (forall f :: f in n.primary ==> n.primary[f] == s.primary[f])
    && (forall f, other :: other in Listed(n.shadows, f) <==> other in Listed(s.shadows, f) && other != id)
  }

  /** Scrubbing takes exactly one model out of every index. */
  lemma ScrubbedMeaning(s: State, id: string)
    requires Inv(s)
    ensures Inv(Scrubbed(s, id))
    ensures Dropped(s, Scrubbed(s, id), id) && Roleless(Scrubbed(s, id), id)
  {
    var n := Scrubbed(s, id);
    forall f | f in s.shadows ensures Distinct(Listed(n.shadows, f)) && forall other :: other in Listed(n.shadows, f) <==> other in s.shadows[f] && other != id {
      WithoutMeaning(s.shadows[f], id);
      assert |s.shadows[f]| == 1 ==> s.shadows[f] == [s.shadows[f][0]];
    }
    forall f | f in n.shadows ensures n.shadows[f] != [] {
      WithoutMeaning(s.shadows[f], id);
    }
    forall f, other | f in n.shadows && other in n.shadows[f] ensures Serves(n, f, other) {
      assert other in Listed(n.shadows, f);
      assert Serves(s, f, other);
    }
  }

  /** A model that is not registered has no role. */
  lemma UnknownIsRoleless(s: State, id: string)
    requires Inv(s) && id !in s.byId
    ensures Roleless(s, id)
  {
    forall f ensures id !in Listed(s.shadows, f) {
      assert f !in s.shadows || id !in s.shadows[f] || Serves(s, f, id);
    }
  }

  /** Changing what is stored for a model without a role disturbs nothing. */
  lemma StoringKeeps(s: State, e: Entry)
    requires Inv(s) && WellFormed(e.metadata) && Roleless(s, e.metadata.id)
    ensures Inv(s.(byId := s.byId[e.metadata.id := e]))
  {
    var n := s.(byId := s.byId[e.metadata.id := e]);
    forall f, id | f in n.shadows && id in n.shadows[f] ensures Serves(n, f, id) {
      assert Serves(s, f, id);
      assert id in Listed(s.shadows, f);
    }
  }

  lemma ForgettingKeeps(s: State, id: string)
    requires Inv(s) && Roleless(s, id)
    ensures Inv(s.(byId := s.byId - {id}))
  {
    var n := s.(byId := s.byId - {id});
    forall f, other | f in n.shadows && other in n.shadows[f] ensures Serves(n, f, other) {
      assert Serves(s, f, other);
      assert other in Listed(s.shadows, f);
    }
  }

  /** The state registration gives roles in: the model stored, without a role. */
  function Stored(s: State, e: Entry): State {
    (if e.metadata.id in s.byId then Scrubbed(s, e.metadata.id) else s).(byId := s.byId[e.metadata.id := e])
  }

  lemma StoredMeaning(s: State, e: Entry)
    requires Inv(s) && WellFormed(e.metadata)
    ensures Inv(Stored(s, e)) && Roleless(Stored(s, e), e.metadata.id)
    ensures Dropped(s, Stored(s, e), e.metadata.id)
  {
    var id := e.metadata.id;
    if id in s.byId {
      ScrubbedMeaning(s, id);
      StoringKeeps(Scrubbed(s, id), e);
    } else {
      UnknownIsRoleless(s, id);
      StoringKeeps(s, e);
    }
  }

  lemma ShadowAdded(s: State, f: string, id: string)
    requires Inv(s) && Serves(s, f, id) && Roleless(s, id)
    ensures Inv(s.(shadows := s.shadows[f := Listed(s.shadows, f) + [id]]))
  {
    var n := s.(shadows := s.shadows[f := Listed(s.shadows, f) + [id]]);
    assert id !in Listed(s.shadows, f);
    forall g, other | g in n.shadows && other in n.shadows[g] ensures Serves(n, g, other) {
      assert other == id || Serves(s, g, other);
    }
  }

  lemma RegisterKeeps(s: State, e: Entry, primary: bool)
    requires Inv(s) && WellFormed(e.metadata)
    ensures Inv(Registered(s, e, primary))
  {
    StoredMeaning(s, e);
    if primary {
      assert e.metadata.id !in Listed(Stored(s, e).shadows, e.metadata.featureSet);
    } else {
      ShadowAdded(Stored(s, e), e.metadata.featureSet, e.metadata.id);
    }
  }

  lemma UnregisterKeeps(s: State, id: string)
    requires Inv(s)
    ensures Inv(Unregistered(s, id)) && id !in Unregistered(s, id).byId && Roleless(Unregistered(s, id), id)
  {
    if id in s.byId {
      ScrubbedMeaning(s, id);
      ForgettingKeeps(Scrubbed(s, id), id);
    } else {
      UnknownIsRoleless(s, id);
    }
  }

  // What the operations do to the roles

  /** The model is primary of its feature set, or in its shadow list, and has no other role. */
  ghost predicate HasRole(n: State, id: string, featureSet: string, primary: bool) {
    && (forall f :: (f in n.primary && n.primary[f] == id) <==> (primary && f == featureSet))
    && (forall f :: id in Listed(n.shadows, f) <==> (!primary && f == featureSet))
  }

  /** Other models keep their roles, except the primary that this feature set may lose. */
  ghost predicate OthersKeepRoles(s: State, n: State, id: string, lost: set<string>) {
    && (forall f :: (f in n.primary && n.primary[f] != id) <==> (f in s.primary && s.primary[f] != id && f !in lost))
    && (forall f :: f in n.primary && n.primary[f] != id ==> n.primary[f] == s.primary[f])
    && (forall f, other :: other != id ==> (other in Listed(n.shadows, f) <==> other in Listed(s.shadows, f)))
  }

  /** A registration stores the model under its identifier and gives it exactly the role asked for, new or known. */
  lemma RegisterGivesRole(s: State, e: Entry, primary: bool)
    requires Inv(s) && WellFormed(e.metadata)
    ensures var n := Registered(s, e, primary);
      && n.byId == s.byId[e.metadata.id := e] && n.validations == s.validations
      && HasRole(n, e.metadata.id, e.metadata.featureSet, primary)
      && OthersKeepRoles(s, n, e.metadata.id, if primary then {e.metadata.featureSet} else {})
  {
    StoredMeaning(s, e);
    var id, f := e.metadata.id, e.metadata.featureSet;
    assert id !in Listed(Stored(s, e).shadows, f);
    if primary {
      RaisedRole(s, Stored(s, e), id, f);
    } else {
      LoweredRole(s, Stored(s, e), id, f);
    }
  }

  lemma RaisedRole(s: State, t: State, id: string, f: string)
    requires Dropped(s, t, id) && Roleless(t, id)
    ensures var n := t.(primary := t.primary[f := id]); HasRole(n, id, f, true) && OthersKeepRoles(s, n, id, {f})
  {
  }

  lemma LoweredRole(s: State, t: State, id: string, f: string)
    requires Dropped(s, t, id) && Roleless(t, id)
    ensures var n := t.(shadows := t.shadows[f := Listed(t.shadows, f) + [id]]);
            HasRole(n, id, f, false) && OthersKeepRoles(s, n, id, {})
  {
    var n := t.(shadows := t.shadows[f := Listed(t.shadows, f) + [id]]);
    forall g, other
      ensures other in Listed(n.shadows, g) <==> other in Listed(t.shadows, g) || (g == f && other == id)
    {
    }
  }

  /** Unregistering takes the model and its roles away and leaves every other model alone. */
  lemma UnregisterTakesRole(s: State, id: string)
    requires Inv(s)
    ensures var n := Unregistered(s, id);
      && n.byId == s.byId - {id} && n.validations == s.validations && Roleless(n, id) && OthersKeepRoles(s, n, id, {})
  {
    if id in s.byId {
      ScrubbedMeaning(s, id);
    } else {
      UnknownIsRoleless(s, id);
      assert s.byId - {id} == s.byId;
    }
  }

  // Runs

  datatype Action =
    | Register(entry: Entry, primary: bool, now: int)
    | Unregister(id: string)
    | Record(id: string, validation: Validation)

  /** The next state; a refused operation changes nothing. */
  function Next(s: State, a: Action): State {
    match a
    case Register(e, primary, now) => if Accepts(s, e, primary, now) then Registered(s, e, primary) else s
    case Unregister(id) => Unregistered(s, id)
    case Record(id, v) => if id == "" then s else s.(validations := s.validations[id := v])
  }

  ghost predicate IsRun(states: seq<State>, actions: seq<Action>) {
    && |states| == |actions| + 1 && states[0] == Empty
    && (forall i :: 0 <= i < |actions| ==> Taken(states, actions, i))
  }

  ghost predicate Taken(states: seq<State>, actions: seq<Action>, i: nat)
    requires i < |actions| && i + 1 < |states|
  {
    states[i + 1] == Next(states[i], actions[i])
  }

  lemma NextKeeps(s: State, a: Action)
    requires Inv(s)
    ensures Inv(Next(s, a))
  {
    match a
    case Register(e, primary, now) =>
      if Accepts(s, e, primary, now) {
        RegisterKeeps(s, e, primary);
      }
    case Unregister(id) => UnregisterKeeps(s, id);
    case Record(id, v) =>
      var n := Next(s, a);
      assert forall f, other :: Serves(n, f, other) <==> Serves(s, f, other);
  }

  lemma {:induction false} RunKeeps(states: seq<State>, actions: seq<Action>, n: nat)
    requires IsRun(states, actions) && n < |states|
    ensures Inv(states[n])
  {
    if n > 0 {
      RunKeeps(states, actions, n - 1);
      assert Taken(states, actions, n - 1);
      NextKeeps(states[n - 1], actions[n - 1]);
    }
  }

  /** The only step that makes a model primary is an accepted registration under a current passing validation. */
  lemma BecomesPrimary(s: State, a: Action, f: string)
    requires Inv(s) && f in Next(s, a).primary && (f in s.primary ==> s.primary[f] != Next(s, a).primary[f])
    ensures a.Register? && a.primary && a.entry.metadata == Metadata(Next(s, a).primary[f], f)
    ensures Validated(s, Next(s, a).primary[f], a.now)
  {
    match a
    case Register(e, primary, now) =>
      if Accepts(s, e, primary, now) {
        StoredMeaning(s, e);
      }
    case Unregister(id) =>
      ScrubbedMeaning(s, id);
    case Record(id, v) =>
  }

  /** Whoever is primary at any moment of a run was put there by a gated registration that came before. */
  lemma {:induction false} PrimaryWasValidated(states: seq<State>, actions: seq<Action>, n: nat, f: string) returns (k: nat)
    requires IsRun(states, actions) && n < |states| && f in states[n].primary
    ensures k < n && actions[k].Register? && actions[k].primary
    ensures actions[k].entry.metadata == Metadata(states[n].primary[f], f)
    ensures var id := states[n].primary[f];
      id in states[k].validations && states[k].validations[id].passed && states[k].validations[id].expiresAt > actions[k].now
  {
    assert n > 0;
    assert Taken(states, actions, n - 1);
    RunKeeps(states, actions, n - 1);
    var before := states[n - 1];
    if f in before.primary && before.primary[f] == states[n].primary[f] {
      k := PrimaryWasValidated(states, actions, n - 1, f);
    } else {
      BecomesPrimary(before, actions[n - 1], f);
      k := n - 1;
    }
  }

  // Promotion

  /** The models with a role in a feature set. */
  ghost function Members(s: State, f: string): set<string> {
    (if f in s.primary then {s.primary[f]} else {}) + set id | id in Listed(s.shadows, f)
  }

  /** Winner up, champion down. */
  function Promoted(s: State, winner: Entry, champion: Entry): State {
    Registered(Registered(s, winner, true), champion, false)
  }

  /** The other feature sets' roles are the same. */
  ghost predicate OthersUntouched(s: State, n: State, f: string) {
    && (forall g :: g != f ==> (g in n.primary <==> g in s.primary))
    && (forall g :: g != f && g in n.primary ==> n.primary[g] == s.primary[g])
    && (forall g, id :: g != f ==> (id in Listed(n.shadows, g) <==> id in Listed(s.shadows, g)))
  }

  /** After dropping a model of feature set `f`, the other feature sets are as they were. */
  lemma DroppedLocally(s: State, n: State, f: string, id: string)
    requires Inv(s) && Dropped(s, n, id) && Serves(s, f, id)
    ensures OthersUntouched(s, n, f)
  {
    forall g | g != f ensures (g in s.primary ==> s.primary[g] != id) && id !in Listed(s.shadows, g) {
      assert g in s.shadows && id in s.shadows[g] ==> Serves(s, g, id);
    }
  }

  /** A model registered again as primary of its feature set. */
  lemma RaisedAgain(s: State, f: string, id: string)
    requires Inv(s) && Serves(s, f, id)
    ensures var n := Registered(s, s.byId[id], true);
      && Inv(n) && n.byId == s.byId && n.validations == s.validations && OthersUntouched(s, n, f)
      && f in n.primary && n.primary[f] == id
      && (forall other :: other in Listed(n.shadows, f) <==> other in Listed(s.shadows, f) && other != id)
  {
    var e := s.byId[id];
    RegisterKeeps(s, e, true);
    StoredMeaning(s, e);
    DroppedLocally(s, Stored(s, e), f, id);
    assert s.byId[id := e] == s.byId;
  }

  /** A model registered again as shadow of its feature set. */
  lemma LoweredAgain(s: State, f: string, id: string)
    requires Inv(s) && Serves(s, f, id)
    ensures var n := Registered(s, s.byId[id], false);
      && Inv(n) && n.byId == s.byId && n.validations == s.validations && OthersUntouched(s, n, f)
      && (f in s.primary && s.primary[f] != id ==> f in n.primary && n.primary[f] == s.primary[f])
      && (forall other :: other in Listed(n.shadows, f) <==> other in Listed(s.shadows, f) || other == id)
  {
    var e := s.byId[id];
    RegisterKeeps(s, e, false);
    StoredMeaning(s, e);
    DroppedLocally(s, Stored(s, e), f, id);
    assert s.byId[id := e] == s.byId;
    assert id !in Listed(Stored(s, e).shadows, f);
  }

  /**
   Promotion swaps two roles and does nothing else: the same models have a role in the feature
   set, no other feature set is touched, and the old champion goes on as a shadow.
   */
  lemma PromotionSwaps(s: State, f: string, w: string)
    requires Inv(s) && f in s.primary && w in Listed(s.shadows, f)
    requires w in s.byId && s.primary[f] in s.byId
    ensures var n := Promoted(s, s.byId[w], s.byId[s.primary[f]]);
      && Inv(n) && n.byId == s.byId && n.validations == s.validations && OthersUntouched(s, n, f)
      && f in n.primary && n.primary[f] == w && s.primary[f] in Listed(n.shadows, f)
      && Members(n, f) == Members(s, f)
  {
    var c := s.primary[f];
    assert Serves(s, f, w) && Serves(s, f, c);
    RaisedAgain(s, f, w);
    var middle := Registered(s, s.byId[w], true);
    LoweredAgain(middle, f, c);
    var n := Promoted(s, s.byId[w], s.byId[c]);
    MembersSwapped(s, n, f, w, c);
  }

  lemma MembersSwapped(s: State, n: State, f: string, w: string, c: string)
    requires f in s.primary && s.primary[f] == c && f in n.primary && n.primary[f] == w && w in Listed(s.shadows, f)
    requires forall id :: id in Listed(n.shadows, f) <==> (id in Listed(s.shadows, f) && id != w) || id == c
    ensures Members(n, f) == Members(s, f)
  {
  }

  // The registry object

  class Registry {
    var byId: map<string, Entry>
    var primaryFor: map<string, string>
    var shadowsFor: map<string, seq<string>>
    var validations: map<string, Validation>

    ghost function Contents(): State
      reads this
    {
      State(byId, primaryFor, shadowsFor, validations)
    }

    constructor ()
      ensures Contents() == Empty && Inv(Contents())
    {
      byId, primaryFor, shadowsFor, validations := map[], map[], map[], map[];
    }

    method Register(e: Entry, primary: bool, now: int) returns (accepted: bool)
      requires Inv(Contents())
      modifies this
      ensures Inv(Contents()) && Contents() == Next(old(Contents()), Action.Register(e, primary, now))
      ensures accepted <==>
        && e.metadata.id != "" && e.metadata.featureSet != "" && '@' in e.metadata.id && ':' in e.metadata.featureSet
        && (primary ==> && e.metadata.id in validations && validations[e.metadata.id].passed
                        && validations[e.metadata.id].expiresAt > now)
      ensures !accepted ==> Contents() == old(Contents())
      ensures accepted ==>
        && byId == old(byId)[e.metadata.id := e] && validations == old(validations)
        && HasRole(Contents(), e.metadata.id, e.metadata.featureSet, primary)
        && OthersKeepRoles(old(Contents()), Contents(), e.metadata.id, if primary then {e.metadata.featureSet} else {})
    {
      ghost var before := Contents();
      NextKeeps(before, Action.Register(e, primary, now));
      if WellFormed(e.metadata) {
        RegisterGivesRole(before, e, primary);
      }
      var m := e.metadata;
      if !WellFormed(m) {
        return false;
      }
      if primary && !(m.id in validations && validations[m.id].Current(now)) {
        return false;
      }
      if m.id in byId {
        RemoveFromRoleIndexes(m.id);
      }
      byId := byId[m.id := e];
      if primary {
        primaryFor := primaryFor[m.featureSet := m.id];
      } else {
        var shadows := if m.featureSet in shadowsFor then shadowsFor[m.featureSet] else [];
        if m.id !in shadows {
          shadowsFor := shadowsFor[m.featureSet := shadows + [m.id]];
        }
      }
      return true;
    }

    method Unregister(id: string) returns (present: bool)
      requires Inv(Contents())
      modifies this
      ensures Inv(Contents()) && Contents() == Next(old(Contents()), Action.Unregister(id))
      ensures present <==> id in old(byId)
      ensures byId == old(byId) - {id} && validations == old(validations) && Roleless(Contents(), id)
      ensures OthersKeepRoles(old(Contents()), Contents(), id, {})
    {
      NextKeeps(Contents(), Action.Unregister(id));
      UnregisterTakesRole(Contents(), id);
      if id !in byId {
        return false;
      }
      RemoveFromRoleIndexes(id);
      byId := byId - {id};
      return true;
    }

    method RecordValidation(id: string, v: Validation) returns (accepted: bool)
      requires Inv(Contents())
      modifies this`validations
      ensures accepted <==> id != ""
      ensures Inv(Contents()) && Contents() == Next(old(Contents()), Record(id, v))
    {
      NextKeeps(Contents(), Record(id, v));
      if id == "" {
        return false;
      }
      validations := validations[id := v];
      return true;
    }

    /** Scrubs the model from both indexes, entry by entry. */
    method RemoveFromRoleIndexes(id: string)
      modifies this`primaryFor, this`shadowsFor
      ensures Contents() == Scrubbed(old(Contents()), id)
    {
      var pending := primaryFor.Keys;
      while pending != {}
        invariant pending <= old(primaryFor).Keys && primaryFor.Keys <= old(primaryFor).Keys && shadowsFor == old(shadowsFor)
        invariant forall f :: f in old(primaryFor) ==> (f in primaryFor <==> f in pending || old(primaryFor)[f] != id)
        invariant forall f :: f in primaryFor ==> primaryFor[f] == old(primaryFor)[f]
        decreases |pending|
      {
        var f :| f in pending;
        pending := pending - {f};
        if primaryFor[f] == id {
          primaryFor := primaryFor - {f};
        }
      }
      RemoveFromShadows(id);
    }

    method RemoveFromShadows(id: string)
      modifies this`shadowsFor
      ensures shadowsFor == ScrubbedShadows(old(shadowsFor), id)
    {
      ghost var goal := ScrubbedShadows(shadowsFor, id);
      var pending := shadowsFor.Keys;
      while pending != {}
        invariant pending <= old(shadowsFor).Keys && shadowsFor.Keys <= old(shadowsFor).Keys
        invariant forall f :: f in pending ==> f in shadowsFor && shadowsFor[f] == old(shadowsFor)[f]
        invariant forall f :: f in old(shadowsFor) && f !in pending ==> (f in shadowsFor <==> f in goal)
        invariant forall f :: f in shadowsFor && f !in pending ==> shadowsFor[f] == goal[f]
        decreases |pending|
      {
        var f :| f in pending;
        pending := pending - {f};
        if id in shadowsFor[f] {
          var rest := Without(shadowsFor[f], id);
          WithoutLength(shadowsFor[f], id);
          if rest == [] {
            shadowsFor := shadowsFor - {f};
          } else {
            shadowsFor := shadowsFor[f := rest];
          }
        }
      }
    }
  }

  lemma {:induction false} WithoutLength(ids: seq<string>, id: string)
    requires id in ids
    ensures |Without(ids, id)| == |ids| - 1
  {
    if ids[0] != id {
      WithoutLength(ids[1..], id);
    }
  }
}
