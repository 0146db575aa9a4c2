/** The tag service: tags belong to a user, are looked up only within that
    user's tags, and hold a set of assets. Adding and removing assets gives
    one verdict per requested id, judged against the tag as it was before the
    request, and then applies exactly the successful ids. */
module Tags {
  import opened Common

  type TagId = string
  type UserId = string
  type AssetId = string

  datatype TagType = ObjectTag | FaceTag | CustomTag

  datatype Tag = Tag(id: TagId, userId: UserId, name: string, tagType: TagType, assets: set<AssetId>)

  /** The tag repository. */
  datatype TagStore = TagStore(tags: map<TagId, Tag>)

  const TagNotFound := "Tag not found"
  const DuplicateTagName := "A tag with that name already exists"

  datatype AssetIdErrorReason = Duplicate | NotFound

  /** One entry of the response to an add or remove request. */
  datatype AssetIdResult = AssetIdResult(assetId: AssetId, success: bool, error: Option<AssetIdErrorReason>)

  /** The result of an add or remove: the new store, the verdicts in request
      order, and the ids handed to the repository. */
  datatype MembershipChange = MembershipChange(store: TagStore, results: seq<AssetIdResult>, applied: seq<AssetId>)

  /** `findOrFail`: a tag is found only by its owner. */
  function FindOrFail(store: TagStore, user: UserId, id: TagId): (r: Result<Tag, string>)
    ensures r.Ok? <==> id in store.tags && store.tags[id].userId == user
    ensures r.Ok? ==> r.value == store.tags[id]
    ensures r.Err? ==> r.error == TagNotFound
  {
    if id in store.tags && store.tags[id].userId == user then Ok(store.tags[id]) else Err(TagNotFound)
  }

  /** `getAll`: exactly the user's own tags. */
  function GetAll(store: TagStore, user: UserId): (r: set<Tag>)
    ensures forall t :: t in r <==> exists id :: id in store.tags && store.tags[id] == t && t.userId == user
  {
    set id | id in store.tags && store.tags[id].userId == user :: store.tags[id]
  }

  /** A tag `getById` finds is one `getAll` lists, and every listed tag can
      be fetched by its key. */
  lemma GetByIdAgreesWithGetAll(store: TagStore, user: UserId, id: TagId)
    ensures FindOrFail(store, user, id).Ok? ==> FindOrFail(store, user, id).value in GetAll(store, user)
    ensures id in store.tags && store.tags[id] in GetAll(store, user) ==> FindOrFail(store, user, id).Ok?
  {
  }

  /** The user already has a tag with this name. */
  predicate HasName(store: TagStore, user: UserId, name: string) {
    exists id :: id in store.tags && store.tags[id].userId == user && store.tags[id].name == name
  }

  /** No user has two tags with the same name. */
  ghost predicate NamesUnique(store: TagStore) {
    forall a, b :: a in store.tags && b in store.tags && a != b && store.tags[a].userId == store.tags[b].userId
      ==> store.tags[a].name != store.tags[b].name
  }

  /** `create`: refused when the user already has the name, before anything
      is created; otherwise a new empty tag under the id the repository
      assigns. */
  function Create(store: TagStore, user: UserId, name: string, tagType: TagType, newId: TagId): (r: Result<(TagStore, Tag), string>)
    requires newId !in store.tags
    ensures r.Err? <==> HasName(store, user, name)
    ensures r.Err? ==> r.error == DuplicateTagName
    ensures r.Ok? ==>
      var (s, t) := r.value;
      && t == Tag(newId, user, name, tagType, {})
      && s.tags == store.tags[newId := t]
  {
    if HasName(store, user, name) then Err(DuplicateTagName)
    else
      var t := Tag(newId, user, name, tagType, {});
      Ok((TagStore(store.tags[newId := t]), t))
  }

  /** Creating keeps every user's tag names distinct. */
  lemma CreateKeepsNamesUnique(store: TagStore, user: UserId, name: string, tagType: TagType, newId: TagId)
    requires newId !in store.tags && NamesUnique(store)
    ensures var r := Create(store, user, name, tagType, newId);
      r.Ok? ==> NamesUnique(r.value.0)
  {
    var r := Create(store, user, name, tagType, newId);
    if r.Ok? {
      var s := r.value.0;
      forall a, b | a in s.tags && b in s.tags && a != b && s.tags[a].userId == s.tags[b].userId
        ensures s.tags[a].name != s.tags[b].name
      {
        if a == newId {
          assert !(store.tags[b].userId == user && store.tags[b].name == name);
        } else if b == newId {
          assert !(store.tags[a].userId == user && store.tags[a].name == name);
        }
      }
    }
  }

  /** `update`: renames a tag its user owns. */
  function Update(store: TagStore, user: UserId, id: TagId, name: string): (r: Result<(TagStore, Tag), string>)
    ensures r.Err? <==> FindOrFail(store, user, id).Err?
    ensures r.Err? ==> r.error == TagNotFound
    ensures r.Ok? ==>
      var (s, t) := r.value;
      && t == store.tags[id].(name := name)
      && s.tags.Keys == store.tags.Keys
      && (forall other :: other in store.tags && other != id ==> s.tags[other] == store.tags[other])
      && s.tags[id] == t
  {
    match FindOrFail(store, user, id)
    case Err(e) => Err(e)
    case Ok(tag) =>
      var t := tag.(name := name);
      Ok((TagStore(store.tags[id := t]), t))
  }

  /** Unlike `create`, `update` does not ask whether the name is taken: renaming
      one of a user's tags to the name of another leaves the user with two
      tags of that name. */
  lemma UpdateCanDuplicateName(store: TagStore, user: UserId, id: TagId, other: TagId)
    requires id in store.tags && other in store.tags && id != other
    requires store.tags[id].userId == user && store.tags[other].userId == user
    ensures var r := Update(store, user, id, store.tags[other].name);
      r.Ok? && !NamesUnique(r.value.0) && HasName(store, user, store.tags[other].name)
  {
    var name := store.tags[other].name;
    var s := Update(store, user, id, name).value.0;
    assert s.tags[id].name == name && s.tags[other].name == name;
  }

  /** `remove`: deletes a tag its user owns and nothing else. */
  function Remove(store: TagStore, user: UserId, id: TagId): (r: Result<TagStore, string>)
    ensures r.Err? <==> FindOrFail(store, user, id).Err?
    ensures r.Err? ==> r.error == TagNotFound
    ensures r.Ok? ==>
      && r.value.tags.Keys == store.tags.Keys - {id}
      && (forall other :: other in r.value.tags ==> r.value.tags[other] == store.tags[other])
  {
    match FindOrFail(store, user, id)
    case Err(e) => Err(e)
    case Ok(_) => Ok(TagStore(store.tags - {id}))
  }

  /** `getAssets`: the assets of a tag its user owns. */
  function GetAssets(store: TagStore, user: UserId, id: TagId): (r: Result<set<AssetId>, string>)
    ensures r.Err? <==> FindOrFail(store, user, id).Err?
    ensures r.Ok? ==> r.value == store.tags[id].assets
  {
    match FindOrFail(store, user, id)
    case Err(e) => Err(e)
    case Ok(tag) => Ok(tag.assets)
  }

  /** The verdicts of an add: an id already in the tag is a duplicate. */
  function AddVerdicts(present: set<AssetId>, ids: seq<AssetId>): (rs: seq<AssetIdResult>)
    ensures |rs| == |ids|
    ensures forall i :: 0 <= i < |ids| ==>
      && rs[i].assetId == ids[i]
      && (rs[i].success <==> ids[i] !in present)
      && (rs[i].error.Some? <==> !rs[i].success)
      && (rs[i].error.Some? ==> rs[i].error.value == Duplicate)
  {
    seq(|ids|, i requires 0 <= i < |ids| =>
      if ids[i] in present then AssetIdResult(ids[i], false, Some(Duplicate)) else AssetIdResult(ids[i], true, None))
  }

  /** The verdicts of a removal: an id not in the tag is not found. */
  function RemoveVerdicts(present: set<AssetId>, ids: seq<AssetId>): (rs: seq<AssetIdResult>)
    ensures |rs| == |ids|
    ensures forall i :: 0 <= i < |ids| ==>
      && rs[i].assetId == ids[i]
      && (rs[i].success <==> ids[i] in present)
      && (rs[i].error.Some? <==> !rs[i].success)
      && (rs[i].error.Some? ==> rs[i].error.value == NotFound)
  {
    seq(|ids|, i requires 0 <= i < |ids| =>
      if ids[i] in present then AssetIdResult(ids[i], true, None) else AssetIdResult(ids[i], false, Some(NotFound)))
  }

  predicate Succeeded(r: AssetIdResult) {
    r.success
  }

  function IdOf(r: AssetIdResult): AssetId {
    r.assetId
  }

  /** `results.filter(r => r.success).map(r => r.assetId)`. */
  function Successes(rs: seq<AssetIdResult>): seq<AssetId> {
    FilterMap(rs, Succeeded, IdOf)
  }

  /** The ids handed on are exactly the requested ids the verdicts accept. */
  lemma SuccessesAreAccepted(rs: seq<AssetIdResult>, ids: seq<AssetId>, accepted: set<AssetId>)
    requires |rs| == |ids|
    requires forall i :: 0 <= i < |ids| ==> rs[i].assetId == ids[i] && (rs[i].success <==> ids[i] in accepted)
    ensures forall x :: x in Successes(rs) <==> x in ids && x in accepted
  {
    FilterMapMembers(rs, Succeeded, IdOf);
    forall x | x in ids && x in accepted
      ensures x in Successes(rs)
    {
      var i :| 0 <= i < |ids| && ids[i] == x;
      assert Succeeded(rs[i]);
    }
  }

  /** `addAssets`: one verdict per requested id, in request order, then the
      accepted ids are added to the tag. */
  function AddAssets(store: TagStore, user: UserId, id: TagId, assetIds: seq<AssetId>): (r: Result<MembershipChange, string>)
    ensures r.Err? <==> FindOrFail(store, user, id).Err?
    ensures r.Err? ==> r.error == TagNotFound
    ensures r.Ok? ==>
      var before := store.tags[id];
      var c := r.value;
      && |c.results| == |assetIds|
      && (forall i :: 0 <= i < |assetIds| ==>
            c.results[i].assetId == assetIds[i] && (c.results[i].success <==> assetIds[i] !in before.assets))
      && (forall x :: x in c.applied <==> x in assetIds && x !in before.assets)
      && c.store.tags == store.tags[id := before.(assets := before.assets + (set x | x in assetIds))]
  {
    match FindOrFail(store, user, id)
    case Err(e) => Err(e)
    case Ok(tag) =>
      var results := AddVerdicts(tag.assets, assetIds);
      var applied := Successes(results);
      var notBefore := set x | x in assetIds && x !in tag.assets;
      SuccessesAreAccepted(results, assetIds, (set x | x in assetIds) - tag.assets);
      assert (set x | x in applied) == notBefore;
      assert tag.assets + notBefore == tag.assets + (set x | x in assetIds);
      var after := tag.(assets := tag.assets + (set x | x in applied));
      Ok(MembershipChange(TagStore(store.tags[id := after]), results, applied))
  }

  /** `removeAssets`: one verdict per requested id, in request order, then the
      accepted ids are removed from the tag. */
  function RemoveAssets(store: TagStore, user: UserId, id: TagId, assetIds: seq<AssetId>): (r: Result<MembershipChange, string>)
    ensures r.Err? <==> FindOrFail(store, user, id).Err?
    ensures r.Err? ==> r.error == TagNotFound
    ensures r.Ok? ==>
      var before := store.tags[id];
      var c := r.value;
      && |c.results| == |assetIds|
      && (forall i :: 0 <= i < |assetIds| ==>
            c.results[i].assetId == assetIds[i] && (c.results[i].success <==> assetIds[i] in before.assets))
      && (forall x :: x in c.applied <==> x in assetIds && x in before.assets)
      && c.store.tags == store.tags[id := before.(assets := before.assets - (set x | x in assetIds))]
  {
    match FindOrFail(store, user, id)
    case Err(e) => Err(e)
    case Ok(tag) =>
      var results := RemoveVerdicts(tag.assets, assetIds);
      var applied := Successes(results);
      SuccessesAreAccepted(results, assetIds, tag.assets);
      assert tag.assets - (set x | x in applied) == tag.assets - (set x | x in assetIds);
      var after := tag.(assets := tag.assets - (set x | x in applied));
      Ok(MembershipChange(TagStore(store.tags[id := after]), results, applied))
  }

  /** The accepted ids are handed on in request order: applying an add for
      two requests joined is applying them one after the other on the ids. */
  lemma {:induction false} AppliedInRequestOrder(present: set<AssetId>, xs: seq<AssetId>, ys: seq<AssetId>)
    ensures Successes(AddVerdicts(present, xs + ys)) == Successes(AddVerdicts(present, xs)) + Successes(AddVerdicts(present, ys))
    ensures Successes(RemoveVerdicts(present, xs + ys)) == Successes(RemoveVerdicts(present, xs)) + Successes(RemoveVerdicts(present, ys))
  {
    assert AddVerdicts(present, xs + ys) == AddVerdicts(present, xs) + AddVerdicts(present, ys);
    assert RemoveVerdicts(present, xs + ys) == RemoveVerdicts(present, xs) + RemoveVerdicts(present, ys);
    FilterMapAppend(AddVerdicts(present, xs), AddVerdicts(present, ys), Succeeded, IdOf);
    FilterMapAppend(RemoveVerdicts(present, xs), RemoveVerdicts(present, ys), Succeeded, IdOf);
  }

  /** Verdicts are judged against the tag before the request: an id asked for
      twice gets the same verdict both times. */
  lemma RepeatedIdSameVerdict(present: set<AssetId>, ids: seq<AssetId>, i: nat, j: nat)
    requires i < |ids| && j < |ids| && ids[i] == ids[j]
    ensures AddVerdicts(present, ids)[i] == AddVerdicts(present, ids)[j]
    ensures RemoveVerdicts(present, ids)[i] == RemoveVerdicts(present, ids)[j]
  {
  }

  /** Adding then removing the same ids leaves a tag without them, and adding
      ids already present changes nothing. */
  lemma AddThenRemove(store: TagStore, user: UserId, id: TagId, assetIds: seq<AssetId>)
    requires AddAssets(store, user, id, assetIds).Ok?
    ensures var added := AddAssets(store, user, id, assetIds).value.store;
      var removed := RemoveAssets(added, user, id, assetIds);
      && removed.Ok?
      && removed.value.store.tags[id].assets == store.tags[id].assets - (set x | x in assetIds)
      && (forall other :: other in store.tags && other != id ==> removed.value.store.tags[other] == store.tags[other])
  {
  }
}
