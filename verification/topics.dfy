/** The topic model (`Topic` and `getByName`): a topic document is a
    record of named fields stored under an `_id`; `main` and `resources`
    list resource URLs and `children` lists the names of sub-topics.
    The store is a map from topic name to stored document, and the
    resource store a map from URL to resource data.

    Nothing in the source prevents a topic from being its own descendant,
    and then `getResources` and `populate` never return; the model asks
    instead for a ranking of the topics that every child link descends. */
module Topics {
  import opened Wrappers

  /** A field value of a stored document. */
  datatype Value = Null | Text(text: string) | Texts(items: seq<string>) | Number(n: int) | Flag(b: bool)

  type Fields = map<string, Value>

  const IdKey: string := "_id"
  const MainKey: string := "main"
  const ResourcesKey: string := "resources"
  const ChildrenKey: string := "children"

  /** The fields `populate` replaces by their resolved form. */
  const ListKeys: set<string> := {MainKey, ResourcesKey, ChildrenKey}

  /** What `getById` returns for a resource. */
  datatype ResourceData = ResourceData(url: string, title: string)

  type Store = map<string, Fields>
  type Catalog = map<string, ResourceData>

  datatype TopicError = TopicNotFound(name: string) | ResourceNotFound(url: string)

  /** A list field read the way `if (data.main)` reads it: a list when one
      is stored, `None` when the field is null or absent. */
  function ListField(d: Fields, key: string): (r: Option<seq<string>>)
    ensures r.Some? <==> key in d && d[key].Texts?
    ensures r.Some? ==> r.value == d[key].items
  {
    if key in d && d[key].Texts? then Some(d[key].items) else None
  }

  /** A list field with an absent list read as empty. */
  function Ids(d: Fields, key: string): (r: seq<string>)
    ensures ListField(d, key).Some? ==> r == ListField(d, key).value
    ensures ListField(d, key).None? ==> r == []
  {
    match ListField(d, key)
    case Some(ids) => ids
    case None => []
  }

  function Children(d: Fields): seq<string>
  {
    Ids(d, ChildrenKey)
  }

  /** `data`: the document without its `_id`. */
  function Data(doc: Fields): (d: Fields)
    ensures IdKey !in d
    ensures d.Keys == doc.Keys - {IdKey}
    ensures forall k :: k in d ==> d[k] == doc[k]
  {
    doc - {IdKey}
  }

  /** `getByName`: the stored document of a topic, or an error. */
  function GetByName(store: Store, name: string): (r: Result<Fields, TopicError>)
    ensures r.Err? <==> name !in store
    ensures r.Ok? ==> r.value == store[name]
    ensures r.Err? ==> r.error == TopicNotFound(name)
  {
    if name in store then Ok(store[name]) else Err(TopicNotFound(name))
  }

  /** Every child link that leads to a stored topic goes down in `rank`. */
  ghost predicate Ranked(store: Store, rank: map<string, nat>) {
    && store.Keys <= rank.Keys
    && forall n, i :: n in store && 0 <= i < |Children(store[n])| && Children(store[n])[i] in store ==>
         rank[Children(store[n])[i]] < rank[n]
  }

  /** `getResources` of the stored topic `name`: its `main` ids, its
      `resources` ids, then the resources of each child in order. */
  function Resources(store: Store, ghost rank: map<string, nat>, name: string): (r: Result<seq<string>, TopicError>)
    requires Ranked(store, rank) && name in store
    ensures r.Ok? ==> |r.value| >= |Own(store[name])|
    ensures r.Ok? ==> r.value[..|Own(store[name])|] == Own(store[name])
    decreases rank[name], 1
  {
    var d := Data(store[name]);
    var own := Own(store[name]);
    if ListField(d, ChildrenKey).None? then Ok(own)
    else
      match ChildResources(store, rank, name, 0)
      case Err(e) => Err(e)
      case Ok(rest) =>
        assert (own + rest)[..|own|] == own;
        Ok(own + rest)
  }

  /** The ids a topic lists itself: `main` then `resources`. */
  function Own(doc: Fields): seq<string>
  {
    Ids(doc, MainKey) + Ids(doc, ResourcesKey)
  }

  /** The resources of the children of `parent` from position `i` on. */
  function ChildResources(store: Store, ghost rank: map<string, nat>, parent: string, i: nat)
    : (r: Result<seq<string>, TopicError>)
    requires Ranked(store, rank) && parent in store && i <= |Children(store[parent])|
    decreases rank[parent], 0, |Children(store[parent])| - i
  {
    var kids := Children(store[parent]);
    if i == |kids| then Ok([])
    else
      match GetByName(store, kids[i])
      case Err(e) => Err(e)
      case Ok(_) =>
        match Resources(store, rank, kids[i])
        case Err(e) => Err(e)
        case Ok(first) =>
          match ChildResources(store, rank, parent, i + 1)
          case Err(e) => Err(e)
          case Ok(rest) => Ok(first + rest)
  }

  /** A topic without children lists exactly its own `main` and
      `resources`, an absent list contributing nothing. */
  lemma LeafResources(store: Store, rank: map<string, nat>, name: string)
    requires Ranked(store, rank) && name in store
    requires ListField(store[name], ChildrenKey).None?
    ensures Resources(store, rank, name) == Ok(Ids(store[name], MainKey) + Ids(store[name], ResourcesKey))
  {
    assert ListField(Data(store[name]), ChildrenKey) == ListField(store[name], ChildrenKey);
  }

  /** A child that is not in the store makes `getResources` fail. */
  lemma MissingChildFails(store: Store, rank: map<string, nat>, name: string, i: nat)
    requires Ranked(store, rank) && name in store
    requires ListField(store[name], ChildrenKey).Some?
    requires i < |Children(store[name])| && Children(store[name])[i] !in store
    ensures Resources(store, rank, name).Err?
  {
    assert ListField(Data(store[name]), ChildrenKey) == ListField(store[name], ChildrenKey);
    MissingChildFailsFrom(store, rank, name, 0, i);
  }

  lemma {:induction false} MissingChildFailsFrom(store: Store, rank: map<string, nat>, parent: string, j: nat, i: nat)
    requires Ranked(store, rank) && parent in store
    requires j <= i < |Children(store[parent])| && Children(store[parent])[i] !in store
    ensures ChildResources(store, rank, parent, j).Err?
    decreases i - j
  {
    if j < i {
      MissingChildFailsFrom(store, rank, parent, j + 1, i);
    }
  }

  /** A topic after `populate`: every other field as stored, and the three
      lists resolved, each `None` where the stored field was null or absent. */
  datatype PopulatedTopic = PopulatedTopic(
    fields: Fields,
    main: Option<seq<ResourceData>>,
    resources: Option<seq<ResourceData>>,
    children: Subtopics)

  /** The resolved `children` field: `Unset` where it was null or absent. */
  datatype Subtopics = Unset | Listed(topics: seq<PopulatedTopic>)

  /** `getById` over a list of resource URLs, in order, failing on the
      first one the catalog does not hold. */
  function LookupAll(catalog: Catalog, ids: seq<string>): (r: Result<seq<ResourceData>, TopicError>)
    ensures r.Ok? <==> forall i :: 0 <= i < |ids| ==> ids[i] in catalog
    ensures r.Ok? ==> |r.value| == |ids| && forall i :: 0 <= i < |ids| ==> r.value[i] == catalog[ids[i]]
    ensures r.Err? ==> r.error.ResourceNotFound? && r.error.url in ids && r.error.url !in catalog
  {
    if |ids| == 0 then Ok([])
    else if ids[0] !in catalog then Err(ResourceNotFound(ids[0]))
    else
      match LookupAll(catalog, ids[1..])
      case Err(e) => Err(e)
      case Ok(rest) => Ok([catalog[ids[0]]] + rest)
  }

  /** Resolves a list field, keeping an absent list absent. */
  function LookupField(catalog: Catalog, field: Option<seq<string>>): (r: Result<Option<seq<ResourceData>>, TopicError>)
    ensures r.Ok? ==> (r.value.None? <==> field.None?)
    ensures r.Ok? <==> field.None? || forall i :: 0 <= i < |field.value| ==> field.value[i] in catalog
    ensures r.Ok? && field.Some? ==>
      && |r.value.value| == |field.value|
      && forall i :: 0 <= i < |field.value| ==> r.value.value[i] == catalog[field.value[i]]
  {
    match field
    case None => Ok(None)
    case Some(ids) =>
      match LookupAll(catalog, ids)
      case Err(e) => Err(e)
      case Ok(rs) => Ok(Some(rs))
  }

  /** `populate` of the stored topic `name`. */
  function Populate(store: Store, ghost rank: map<string, nat>, catalog: Catalog, name: string)
    : (r: Result<PopulatedTopic, TopicError>)
    requires Ranked(store, rank) && name in store
    ensures r.Ok? ==> r.value.fields.Keys == store[name].Keys - {IdKey} - ListKeys
    ensures r.Ok? ==> forall k :: k in r.value.fields ==> r.value.fields[k] == store[name][k]
    ensures r.Ok? ==> (r.value.main.None? <==> ListField(store[name], MainKey).None?)
    ensures r.Ok? ==> (r.value.resources.None? <==> ListField(store[name], ResourcesKey).None?)
    ensures r.Ok? ==> (r.value.children.Unset? <==> ListField(store[name], ChildrenKey).None?)
    ensures r.Ok? && r.value.main.Some? ==>
      var ids := ListField(store[name], MainKey).value;
      && (forall i :: 0 <= i < |ids| ==> ids[i] in catalog)
      && |r.value.main.value| == |ids|
      && forall i :: 0 <= i < |ids| ==> r.value.main.value[i] == catalog[ids[i]]
    ensures r.Ok? && r.value.resources.Some? ==>
      var ids := ListField(store[name], ResourcesKey).value;
      && (forall i :: 0 <= i < |ids| ==> ids[i] in catalog)
      && |r.value.resources.value| == |ids|
      && forall i :: 0 <= i < |ids| ==> r.value.resources.value[i] == catalog[ids[i]]
    ensures r.Ok? && r.value.children.Listed? ==>
      var kids := Children(store[name]);
      && |r.value.children.topics| == |kids|
      && forall k :: 0 <= k < |kids| ==>
           kids[k] in store && Populate(store, rank, catalog, kids[k]) == Ok(r.value.children.topics[k])
    decreases rank[name], 1
  {
    var d := Data(store[name]);
    var fields := d - ListKeys;
    match LookupField(catalog, ListField(d, MainKey))
    case Err(e) => Err(e)
    case Ok(main) =>
      match LookupField(catalog, ListField(d, ResourcesKey))
      case Err(e) => Err(e)
      case Ok(resources) =>
        if ListField(d, ChildrenKey).None? then Ok(PopulatedTopic(fields, main, resources, Unset))
        else
          match PopulateChildren(store, rank, catalog, name, 0)
          case Err(e) => Err(e)
          case Ok(children) => Ok(PopulatedTopic(fields, main, resources, Listed(children)))
  }

  /** The populated children of `parent` from position `i` on. */
  function PopulateChildren(store: Store, ghost rank: map<string, nat>, catalog: Catalog, parent: string, i: nat)
    : (r: Result<seq<PopulatedTopic>, TopicError>)
    requires Ranked(store, rank) && parent in store && i <= |Children(store[parent])|
    ensures r.Ok? ==> |r.value| == |Children(store[parent])| - i
    ensures r.Ok? ==>
      var kids := Children(store[parent]);
      forall k :: i <= k < |kids| ==>
        kids[k] in store && Populate(store, rank, catalog, kids[k]) == Ok(r.value[k - i])
    decreases rank[parent], 0, |Children(store[parent])| - i
  {
    var kids := Children(store[parent]);
    if i == |kids| then Ok([])
    else
      match GetByName(store, kids[i])
      case Err(e) => Err(e)
      case Ok(_) =>
        match Populate(store, rank, catalog, kids[i])
        case Err(e) => Err(e)
        case Ok(first) =>
          match PopulateChildren(store, rank, catalog, parent, i + 1)
          case Err(e) => Err(e)
          case Ok(rest) => Ok([first] + rest)
  }

  /** Every resource is stored under its own URL. */
  ghost predicate CatalogConsistent(catalog: Catalog) {
    forall u :: u in catalog ==> catalog[u].url == u
  }

  function UrlsOf(rs: Option<seq<ResourceData>>): seq<string>
  {
    match rs
    case None => []
    case Some(list) => seq(|list|, i requires 0 <= i < |list| => list[i].url)
  }

  /** The resource URLs of a populated topic tree, depth first. */
  function Urls(p: PopulatedTopic): seq<string>
    decreases p
  {
    UrlsOf(p.main) + UrlsOf(p.resources) +
    match p.children
    case Unset => []
    case Listed(ps) => ForestUrls(ps)
  }

  /** The resource URLs of a sequence of populated topics, in order. */
  function ForestUrls(ps: seq<PopulatedTopic>): seq<string>
    decreases ps
  {
    if |ps| == 0 then [] else Urls(ps[0]) + ForestUrls(ps[1..])
  }

  /** `populate` and `getResources` see the same tree: when a topic
      populates, its resource list is the URLs of the populated tree, in
      the same order. */
  lemma PopulateAgreesWithResources(store: Store, rank: map<string, nat>, catalog: Catalog, name: string)
    requires Ranked(store, rank) && name in store && CatalogConsistent(catalog)
    requires Populate(store, rank, catalog, name).Ok?
    ensures Resources(store, rank, name) == Ok(Urls(Populate(store, rank, catalog, name).value))
    decreases rank[name], 1
  {
    var doc := store[name];
    var d := Data(doc);
    var p := Populate(store, rank, catalog, name).value;
    assert ListField(d, MainKey) == ListField(doc, MainKey);
    assert ListField(d, ResourcesKey) == ListField(doc, ResourcesKey);
    assert ListField(d, ChildrenKey) == ListField(doc, ChildrenKey);
    UrlsOfLookup(catalog, ListField(doc, MainKey), p.main);
    UrlsOfLookup(catalog, ListField(doc, ResourcesKey), p.resources);
    assert Own(doc) == UrlsOf(p.main) + UrlsOf(p.resources);
    if ListField(d, ChildrenKey).Some? {
      var ps := PopulateChildren(store, rank, catalog, name, 0).value;
      assert p.children == Listed(ps);
      PopulateChildrenAgree(store, rank, catalog, name, 0);
      assert Urls(p) == Own(doc) + ForestUrls(ps);
      assert Resources(store, rank, name) == Ok(Own(doc) + ForestUrls(ps));
    } else {
      assert Urls(p) == Own(doc);
    }
  }

  /** The children's half of `PopulateAgreesWithResources`. */
  lemma PopulateChildrenAgree(store: Store, rank: map<string, nat>, catalog: Catalog, parent: string, i: nat)
    requires Ranked(store, rank) && parent in store && CatalogConsistent(catalog)
    requires i <= |Children(store[parent])|
    requires PopulateChildren(store, rank, catalog, parent, i).Ok?
    ensures var ps := PopulateChildren(store, rank, catalog, parent, i).value;
            ChildResources(store, rank, parent, i) == Ok(ForestUrls(ps))
    decreases rank[parent], 0, |Children(store[parent])| - i
  {
    var kids := Children(store[parent]);
    var ps := PopulateChildren(store, rank, catalog, parent, i).value;
    if i < |kids| {
      var first := Populate(store, rank, catalog, kids[i]).value;
      var rest := PopulateChildren(store, rank, catalog, parent, i + 1).value;
      assert ps == [first] + rest;
      PopulateAgreesWithResources(store, rank, catalog, kids[i]);
      PopulateChildrenAgree(store, rank, catalog, parent, i + 1);
      assert ps[1..] == rest;
    }
  }

  /** Every id of `ids` names a stored resource. */
  predicate AllCatalogued(catalog: Catalog, ids: seq<string>) {
    forall u :: u in ids ==> u in catalog
  }

  /** `populate` fails exactly when `getResources` fails, on a missing
      topic, or when some resource `getResources` lists is not stored. */
  lemma {:induction false} PopulateSucceedsIff(store: Store, rank: map<string, nat>, catalog: Catalog, name: string)
    requires Ranked(store, rank) && name in store
    ensures Populate(store, rank, catalog, name).Ok? <==>
      Resources(store, rank, name).Ok? && AllCatalogued(catalog, Resources(store, rank, name).value)
    decreases rank[name], 1
  {
    var doc := store[name];
    var d := Data(doc);
    assert ListField(d, MainKey) == ListField(doc, MainKey);
    assert ListField(d, ResourcesKey) == ListField(doc, ResourcesKey);
    assert ListField(d, ChildrenKey) == ListField(doc, ChildrenKey);
    CataloguedField(catalog, ListField(doc, MainKey));
    CataloguedField(catalog, ListField(doc, ResourcesKey));
    if ListField(d, ChildrenKey).Some? {
      ChildrenSucceedIff(store, rank, catalog, name, 0);
    }
  }

  /** The children's half of `PopulateSucceedsIff`. */
  lemma {:induction false} ChildrenSucceedIff(store: Store, rank: map<string, nat>, catalog: Catalog,
                                              parent: string, i: nat)
    requires Ranked(store, rank) && parent in store && i <= |Children(store[parent])|
    ensures PopulateChildren(store, rank, catalog, parent, i).Ok? <==>
      ChildResources(store, rank, parent, i).Ok? && AllCatalogued(catalog, ChildResources(store, rank, parent, i).value)
    decreases rank[parent], 0, |Children(store[parent])| - i
  {
    var kids := Children(store[parent]);
    if i < |kids| && kids[i] in store {
      PopulateSucceedsIff(store, rank, catalog, kids[i]);
      ChildrenSucceedIff(store, rank, catalog, parent, i + 1);
    }
  }

  /** A list field resolves exactly when every id it lists is stored. */
  lemma CataloguedField(catalog: Catalog, field: Option<seq<string>>)
    ensures LookupField(catalog, field).Ok? <==>
      AllCatalogued(catalog, if field.Some? then field.value else [])
  {
    if field.Some? {
      var ids := field.value;
      assert forall u :: u in ids ==> exists i :: 0 <= i < |ids| && ids[i] == u;
    }
  }

  /** The URLs of looked-up resources are the URLs asked for. */
  lemma UrlsOfLookup(catalog: Catalog, field: Option<seq<string>>, rs: Option<seq<ResourceData>>)
    requires CatalogConsistent(catalog)
    requires LookupField(catalog, field) == Ok(rs)
    ensures UrlsOf(rs) == (if field.Some? then field.value else [])
  {
    if field.Some? {
      var ids := field.value;
      var list := rs.value;
      assert forall i :: 0 <= i < |ids| ==> list[i].url == ids[i];
    }
  }

  /** What `update` sends to the store: the document's `_id`, and the
      document's other fields overlaid with the update's. */
  datatype UpdateRequest = UpdateRequest(id: Value, payload: Fields)

  function UpdateRequestOf(doc: Fields, update: Fields): (u: UpdateRequest)
    requires IdKey in doc
    ensures u.id == doc[IdKey]
    ensures u.payload.Keys == (doc.Keys - {IdKey}) + update.Keys
    ensures forall k :: k in update ==> u.payload[k] == update[k]
    ensures forall k :: k in doc && k != IdKey && k !in update ==> u.payload[k] == doc[k]
  {
    UpdateRequest(doc[IdKey], Data(doc) + update)
  }

  /** The document the store hands back for an update request: the
      payload under the original `_id`. The topic store is not part of this
      model; it is taken to answer as the path store's `updateOne` does. */
  function Stored(u: UpdateRequest): (doc: Fields)
    ensures IdKey in doc && doc[IdKey] == u.id
    ensures doc.Keys == u.payload.Keys + {IdKey}
    ensures forall k :: k in u.payload && k != IdKey ==> doc[k] == u.payload[k]
  {
    u.payload[IdKey := u.id]
  }

  /** `update`: the topic's new document. */
  function Update(doc: Fields, update: Fields): (doc': Fields)
    requires IdKey in doc
    ensures IdKey in doc' && doc'[IdKey] == doc[IdKey]
  {
    Stored(UpdateRequestOf(doc, update))
  }

  /** `change`: the topic's data after the update: every updated field
      takes its new value, every other field keeps its old one, and `_id`
      stays out. */
  function Change(doc: Fields, update: Fields): (d: Fields)
    requires IdKey in doc
    ensures d.Keys == (doc.Keys + update.Keys) - {IdKey}
    ensures forall k :: k in update && k != IdKey ==> d[k] == update[k]
    ensures forall k :: k in doc && k != IdKey && k !in update ==> d[k] == doc[k]
  {
    Data(Update(doc, update))
  }

  /** Applying the same change twice is applying it once. */
  lemma ChangeIdempotent(doc: Fields, update: Fields)
    requires IdKey in doc
    ensures Change(Update(doc, update), update) == Change(doc, update)
    ensures Update(Update(doc, update), update) == Update(doc, update)
  {
  }

  /** An empty change leaves the data as it was. */
  lemma ChangeNothing(doc: Fields)
    requires IdKey in doc
    ensures Change(doc, map[]) == Data(doc)
  {
  }
}
