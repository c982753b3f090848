/** The dataset registry: one row a dataset, keyed by the identity its source parses to. */
module DatasetRegistry {
  import opened Outcomes
  import opened OlIdentity
  import opened CanonicalIdentities
  import opened PythonStrings

  type Id = nat

  datatype SchemaField = SchemaField(name: string, kind: string)

  datatype Row = Row(
    name: string,
    source: string,
    identity: Identity,
    description: Option<string>,
    fields: Option<seq<SchemaField>>,
    tags: Option<seq<string>>)

  type Table = map<Id, Row>

  datatype CreateBody = CreateBody(
    name: string, source: string, description: Option<string>, fields: Option<seq<SchemaField>>,
        tags: Option<seq<string>>)

  datatype UpdateBody = UpdateBody(
    name: Option<string>, description: Option<string>, fields: Option<seq<SchemaField>>, tags: Option<seq<string>>)

  // ---------- The table and its transitions ----------

  predicate HasSource(t: Table, source: string) {
    exists i :: i in t && t[i].source == source
  }

  predicate HasIdentity(t: Table, identity: Identity) {
    exists i :: i in t && t[i].identity == identity
  }

  /** The unique keys of the table. */
  ghost predicate KeysAreUnique(t: Table) {
    forall i, j :: i in t && j in t && i != j ==> t[i].source != t[j].source && t[i].identity != t[j].identity
  }

  /** Sources are distinct, identities are distinct, and each row's identity is its source's. */
  ghost predicate Consistent(t: Table) {
    KeysAreUnique(t) && forall i :: i in t ==> ParseOlIdentity(t[i].source) == Some(t[i].identity)
  }

  function NonEmpty<T>(items: Option<seq<T>>): Option<seq<T>> {
    if items == Some([]) then None else items
  }

  predicate WellFormed(body: CreateBody) {
    body.name != "" && body.source != ""
  }

  /** The creations that add a row. */
  predicate Accepted(t: Table, id: Id, body: CreateBody) {
    WellFormed(body) && id !in t && !HasSource(t, body.source)
    && ParseOlIdentity(body.source).Some? && !HasIdentity(t, ParseOlIdentity(body.source).value)
  }

  /** The well-formed creations that are neither accepted nor a conflict. */
  predicate Fails(t: Table, id: Id, body: CreateBody) {
    WellFormed(body) && !HasSource(t, body.source) && !Accepted(t, id, body)
  }

  /** The schema given, or else the sampled one, if either has a field. */
  function NewRow(body: CreateBody, sampled: Option<seq<SchemaField>>): Row
    requires ParseOlIdentity(body.source).Some?
  {
    var given := NonEmpty(body.fields);
    Row(body.name, body.source, ParseOlIdentity(body.source).value, body.description,
        if given.Some? then given else NonEmpty(sampled), body.tags)
  }

  /** Only the fields that are given change. */
  function Updated(row: Row, body: UpdateBody): Row {
    row.(name := if body.name.Some? then body.name.value else row.name,
         description := if body.description.Some? then body.description else row.description,
         fields := if body.fields.Some? then body.fields else row.fields,
         tags := if body.tags.Some? then body.tags else row.tags)
  }

  predicate GivesFields(fields: Option<seq<SchemaField>>) {
    fields.Some? && fields.value != []
  }

  /** Where each field of an added row comes from. */
  ghost predicate IsNewRow(row: Row, body: CreateBody, sampled: Option<seq<SchemaField>>) {
    && row.name == body.name && row.source == body.source && row.description == body.description
    && row.tags == body.tags && Some(row.identity) == ParseOlIdentity(body.source)
    && (GivesFields(body.fields) ==> row.fields == body.fields)
    && (!GivesFields(body.fields) && GivesFields(sampled) ==> row.fields == sampled)
    && (!GivesFields(body.fields) && !GivesFields(sampled) ==> row.fields == None)
  }

  /** What an update may change, and to what. */
  predicate IsChanged(before: Row, after: Row, changes: UpdateBody, fieldsToo: bool) {
    && after.source == before.source && after.identity == before.identity
    && (changes.name == None ==> after.name == before.name)
    && (changes.name != None ==> Some(after.name) == changes.name)
    && (changes.description == None ==> after.description == before.description)
    && (changes.description != None ==> after.description == changes.description)
    && (changes.tags == None ==> after.tags == before.tags)
    && (changes.tags != None ==> after.tags == changes.tags)
    && after.fields == if fieldsToo then changes.fields else before.fields
  }

  /** One row of the table is written, and no other. */
  ghost predicate WritesRow(before: Table, after: Table, id: Id) {
    && id in after && after.Keys == before.Keys + {id}
    && forall i :: i in before && i != id ==> after[i] == before[i]
  }

  datatype Event =
    | Creating(id: Id, body: CreateBody, sampled: Option<seq<SchemaField>>)
    | Updating(id: Id, changes: UpdateBody)
    | Deleting(id: Id)

  function Next(t: Table, e: Event): Table {
    match e
    case Creating(id, body, sampled) => if Accepted(t, id, body) then t[id := NewRow(body, sampled)] else t
    case Updating(id, changes) =>
      if id in t then t[id := Updated(t[id], changes.(fields := NonEmpty(changes.fields)))] else t
    case Deleting(id) => t - {id}
  }

  function Run(t: Table, events: seq<Event>): Table
    decreases |events|
  {
    if events == [] then t else Run(Next(t, events[0]), events[1..])
  }

  // ---------- The database and the handlers ----------

  datatype CreateReply = Created(row: Row) | Conflict | Failed | Unprocessable

  datatype LookupReply = Found(id: Id, row: Row) | NotFound | BadRequest

  datatype Assignment = SetName(name: string) | SetDescription(text: string) | SetFields(fields: seq<SchemaField>)
      | SetTags(tags: seq<string>)

  function Put(row: Row, assignment: Assignment): Row {
    match assignment
    case SetName(name) => row.(name := name)
    case SetDescription(text) => row.(description := Some(text))
    case SetFields(fields) => row.(fields := Some(fields))
    case SetTags(tags) => row.(tags := Some(tags))
  }

  function Assign(row: Row, sets: seq<Assignment>): Row
    decreases |sets|
  {
    if sets == [] then row else Put(Assign(row, sets[..|sets| - 1]), sets[|sets| - 1])
  }

  lemma AssignLast(row: Row, sets: seq<Assignment>, last: Assignment)
    ensures Assign(row, sets + [last]) == Put(Assign(row, sets), last)
  {
    assert (sets + [last])[..|sets|] == sets;
  }

  /** The assignments an UPDATE is put together from: one for each argument that is given. */
  method CollectSets(ghost row: Row, changes: UpdateBody) returns (sets: seq<Assignment>)
    ensures Assign(row, sets) == Updated(row, changes)
  {
    sets := [];
    assert Assign(row, sets) == row;
    hide Assign;
    if changes.name.Some? {
      AssignLast(row, sets, SetName(changes.name.value));
      sets := sets + [SetName(changes.name.value)];
    }
    assert Assign(row, sets) == Updated(row, UpdateBody(changes.name, None, None, None));
    if changes.description.Some? {
      AssignLast(row, sets, SetDescription(changes.description.value));
      sets := sets + [SetDescription(changes.description.value)];
    }
    assert Assign(row, sets) == Updated(row, UpdateBody(changes.name, changes.description, None, None));
    if changes.fields.Some? {
      AssignLast(row, sets, SetFields(changes.fields.value));
      sets := sets + [SetFields(changes.fields.value)];
    }
    assert Assign(row, sets) == Updated(row, UpdateBody(changes.name, changes.description, changes.fields, None));
    if changes.tags.Some? {
      AssignLast(row, sets, SetTags(changes.tags.value));
      sets := sets + [SetTags(changes.tags.value)];
    }
  }

  lemma BreaksKeysIff(t: Table, id: Id, row: Row)
    requires KeysAreUnique(t) && id !in t
    ensures KeysAreUnique(t[id := row]) <==> !HasSource(t, row.source) && !HasIdentity(t, row.identity)
  {
    var more := t[id := row];
    if KeysAreUnique(more) {
      forall i | i in t
        ensures t[i].source != row.source && t[i].identity != row.identity
      {
        assert i in more && id in more && more[i] == t[i];
      }
    }
  }

  lemma RowIsNew(body: CreateBody, sampled: Option<seq<SchemaField>>, fields: Option<seq<SchemaField>>)
    requires ParseOlIdentity(body.source).Some?
    requires fields == if NonEmpty(body.fields).None? then sampled else NonEmpty(body.fields)
    ensures var identity := ParseOlIdentity(body.source).value;
      && Row(body.name, body.source, identity, body.description, NonEmpty(fields), body.tags) == NewRow(body, sampled)
      && IsNewRow(NewRow(body, sampled), body, sampled)
  {
    hide ParseOlIdentity;
  }

  lemma RowIsWritten(t: Table, id: Id, row: Row)
    ensures WritesRow(t, t[id := row], id)
  {
  }

  predicate Given(text: Option<string>) {
    text != None && text != Some("")
  }

  class Registry {
    var rows: Table

    constructor ()
      ensures rows == map[]
    {
      rows := map[];
    }

    method GetBySource(source: string) returns (r: Option<Id>)
      ensures r.Some? <==> HasSource(rows, source)
      ensures r.Some? ==> r.value in rows && rows[r.value].source == source
    {
      if i :| i in rows && rows[i].source == source { return Some(i); }
      return None;
    }

    /** Any row of that name. */
    method GetByName(name: string) returns (r: Option<Id>)
      ensures r.None? <==> forall i :: i in rows ==> rows[i].name != name
      ensures r.Some? ==> r.value in rows && rows[r.value].name == name
    {
      if i :| i in rows && rows[i].name == name { return Some(i); }
      return None;
    }

    /** The INSERT: refused exactly where the row would break the primary key or a unique key. */
    method Insert(id: Id, row: Row) returns (ok: bool)
      modifies this
      ensures ok <==> old(id !in rows && !HasSource(rows, row.source) && !HasIdentity(rows, row.identity))
      ensures KeysAreUnique(old(rows)) ==> (ok <==> id !in old(rows) && KeysAreUnique(old(rows)[id := row]))
      ensures rows == if ok then old(rows)[id := row.(fields := NonEmpty(row.fields))] else old(rows)
    {
      ok := id !in rows && !HasSource(rows, row.source) && !HasIdentity(rows, row.identity);
      ghost var before := rows;
      if KeysAreUnique(before) && id !in before { BreaksKeysIff(before, id, row); }
      if ok { rows := rows[id := row.(fields := NonEmpty(row.fields))]; }
    }

    /** The UPDATE: the assignments are collected from the arguments that are given. */
    method UpdateRow(id: Id, changes: UpdateBody) returns (found: bool)
      modifies this
      ensures found <==> id in old(rows)
      ensures rows == if found then old(rows)[id := Updated(old(rows)[id], changes)] else old(rows)
      ensures found ==> WritesRow(old(rows), rows, id)
      ensures found ==> IsChanged(old(rows)[id], rows[id], changes, changes.fields != None)
    {
      found := id in rows;
      if !found { return; }
      var sets := CollectSets(rows[id], changes);
      rows := rows[id := Assign(rows[id], sets)];
    }

    /** POST: a known source is a conflict; a source that does not parse, or one whose identity
        another spelling already has, fails. */
    method Create(id: Id, body: CreateBody, sampled: Option<seq<SchemaField>>) returns (r: CreateReply)
      modifies this
      ensures rows == Next(old(rows), Creating(id, body, sampled))
      ensures r.Unprocessable? <==> body.name == "" || body.source == ""
      ensures r.Conflict? <==> body.name != "" && body.source != "" && HasSource(old(rows), body.source)
      ensures r.Created? <==> Accepted(old(rows), id, body)
      ensures r.Failed? <==> Fails(old(rows), id, body)
      ensures r.Created? ==> id !in old(rows) && WritesRow(old(rows), rows, id)
      ensures r.Created? ==> r.row == rows[id] && IsNewRow(r.row, body, sampled)
      ensures !r.Created? ==> rows == old(rows)
    {
      if body.name == "" || body.source == "" { return Unprocessable; }
      var existing := GetBySource(body.source);
      if existing.Some? { return Conflict; }
      var identity := ParseOlIdentity(body.source);
      if identity.None? { return Failed; }
      var fields := NonEmpty(body.fields);
      if fields.None? { fields := sampled; }
      RowIsNew(body, sampled, fields);
      RowIsWritten(rows, id, NewRow(body, sampled));
      hide ParseOlIdentity, NewRow, IsNewRow, WritesRow, KeysAreUnique, HasSource, HasIdentity;
      var ok := Insert(id, Row(body.name, body.source, identity.value, body.description, fields, body.tags));
      if !ok { return Failed; }
      return Created(rows[id]);
    }

    /** PUT: an empty schema counts as none given. */
    method Update(id: Id, body: UpdateBody) returns (found: bool)
      modifies this
      ensures found <==> id in old(rows)
      ensures rows == Next(old(rows), Updating(id, body))
      ensures found ==> WritesRow(old(rows), rows, id)
      ensures found ==> IsChanged(old(rows)[id], rows[id], body, GivesFields(body.fields))
      ensures !found ==> rows == old(rows)
    {
      found := UpdateRow(id, body.(fields := NonEmpty(body.fields)));
    }

    method Delete(id: Id) returns (found: bool)
      modifies this
      ensures found <==> id in old(rows)
      ensures rows == Next(old(rows), Deleting(id))
      ensures id !in rows && forall i :: i in old(rows) && i != id ==> i in rows && rows[i] == old(rows)[i]
    {
      found := id in rows;
      rows := rows - {id};
    }

    /** GET lookup: by source if one is given, else by name. */
    method Lookup(source: Option<string>, name: Option<string>) returns (r: LookupReply)
      ensures r.BadRequest? <==> !Given(source) && !Given(name)
      ensures r.Found? ==> r.id in rows && r.row == rows[r.id]
      ensures Given(source) ==> (r.Found? <==> HasSource(rows, source.value))
      ensures Given(source) && r.Found? ==> r.row.source == source.value
      ensures !Given(source) && Given(name) ==> (r.Found? <==> exists i :: i in rows && rows[i].name == name.value)
      ensures !Given(source) && r.Found? ==> r.row.name == name.value
    {
      if NonEmpty(source).None? && NonEmpty(name).None? { return BadRequest; }
      var id: Option<Id>;
      if NonEmpty(source).Some? { id := GetBySource(source.value); } else { id := GetByName(name.value); }
      if id.None? { return NotFound; }
      return Found(id.value, rows[id.value]);
    }
  }

  // ---------- What holds of every run ----------

  lemma NextKeepsConsistent(t: Table, e: Event)
    requires Consistent(t)
    ensures Consistent(Next(t, e))
  {
    hide ParseOlIdentity;
    var after := Next(t, e);
    match e
    case Creating(id, body, sampled) =>
      if Accepted(t, id, body) {
        assert forall i :: i in t ==> t[i].source != body.source && t[i].identity != NewRow(body, sampled).identity;
      }
    case Updating(id, changes) =>
    case Deleting(id) =>
  }

  /** After any sequence of creations, updates and deletions. */
  lemma {:induction false} RunKeepsConsistent(t: Table, events: seq<Event>)
    requires Consistent(t)
    ensures Consistent(Run(t, events))
    decreases |events|
  {
    hide Consistent;
    if events != [] {
      NextKeepsConsistent(t, events[0]);
      RunKeepsConsistent(Next(t, events[0]), events[1..]);
    }
  }

  lemma AnyRegistryIsConsistent(events: seq<Event>)
    ensures Consistent(Run(map[], events))
  {
    RunKeepsConsistent(map[], events);
  }

  /** A row keeps its source and its identity for as long as it exists. */
  lemma {:induction false} IdentityNeverChanges(t: Table, events: seq<Event>, id: Id)
    requires id in t && forall k :: 0 <= k < |events| ==> events[k] != Deleting(id)
    ensures var after := Run(t, events);
      id in after && after[id].source == t[id].source && after[id].identity == t[id].identity
    decreases |events|
  {
    if events != [] {
      var next := Next(t, events[0]);
      assert id in next && next[id].source == t[id].source && next[id].identity == t[id].identity;
      hide Next;
      assert forall k :: 0 <= k < |events[1..]| ==> events[1..][k] == events[k + 1];
      IdentityNeverChanges(next, events[1..], id);
    }
  }

  /** In a consistent table the identity alone decides: a known source is a known identity. */
  lemma AcceptedIffIdentityIsNew(t: Table, id: Id, body: CreateBody)
    requires Consistent(t) && WellFormed(body) && id !in t
    ensures Accepted(t, id, body) <==>
      ParseOlIdentity(body.source).Some? && !HasIdentity(t, ParseOlIdentity(body.source).value)
  {
    hide ParseOlIdentity;
    if HasSource(t, body.source) {
      var i :| i in t && t[i].source == body.source;
      assert t[i].identity == ParseOlIdentity(body.source).value;
    }
  }

  /** A source whose identity is registered under another source text is refused, and the
      refusal is not reported as a conflict: the request fails. */
  lemma OtherSpellingFails(t: Table, known: Id, id: Id, body: CreateBody)
    requires Consistent(t) && known in t && WellFormed(body)
    requires ParseOlIdentity(body.source) == Some(t[known].identity)
    ensures Fails(t, id, body) <==> t[known].source != body.source
  {
    hide ParseOlIdentity;
    assert HasIdentity(t, t[known].identity);
    if HasSource(t, body.source) {
      var i :| i in t && t[i].source == body.source;
      assert t[i].identity == t[known].identity;
    }
  }

  /** In particular, a dataset with a canonical identity cannot be registered again under the
      identity's own spelling. */
  lemma CanonicalSpellingIsTaken(t: Table, known: Id, id: Id, body: CreateBody)
    requires Consistent(t) && known in t && WellFormed(body) && body.source == AsSource(t[known].identity)
    requires ParseOlIdentity(AsSource(t[known].identity)) == Some(t[known].identity)
    ensures !Accepted(t, id, body)
    ensures Fails(t, id, body) <==> t[known].source != AsSource(t[known].identity)
  {
    hide ParseOlIdentity, AsSource;
    OtherSpellingFails(t, known, id, body);
    assert HasIdentity(t, t[known].identity);
  }

  function Bucket(name: string): string {
    Compose("s3", name, "k")
  }

  lemma BucketIdentity(name: string)
    requires name != "" && HostChars(name)
    ensures ParseOlIdentity(Bucket(name)) == Some(PlainIdentity("s3", name, "", "k"))
    ensures PlainIdentity("s3", name, "", "k") == Identity(Lower("s3") + "://" + HostName(name), "k")
  {
    SmallLettersAreLow("s3");
    WrittenSource("s3", name, "", "k");
    assert name + "" == name;
    S3IsPlain();
    hide ParseOlIdentity, HostName, UsesParams, Lower;
    PlainSourcesAreCanonical("s3", name, "", "k");
  }

  lemma S3IsPlain()
    ensures IsScheme("s3") && !UsesParams("s3") && Lower("s3") == "s3" && NameChars("k") && Trimmed("k") &&
        DropSlashes("k") == "k"
  {
    SmallLettersAreLow("s3");
  }

  lemma BucketsAreOne()
    ensures HostChars("B") && HostChars("b") && HostName("B") == HostName("b")
    ensures Bucket("B") != Bucket("b") && Bucket("b") != ""
  {
    TakeUntilAt("B", "", "%");
    TakeUntilAt("b", "", "%");
    assert "B" + "" == "B" && "b" + "" == "b";
    assert Bucket("B")[5] == 'B' && Bucket("b")[5] == 'b';
  }

  lemma OneRowIsConsistent(row: Row)
    requires ParseOlIdentity(row.source) == Some(row.identity)
    ensures Consistent(map[0 := row])
  {
    hide ParseOlIdentity;
  }

  /** A concrete case: with `s3://B/k` registered, registering `s3://b/k` fails. */
  lemma UpperAndLowerBucket(id: Id, name: string, known: Row, body: CreateBody)
    requires name != "" && known == Row(name, Bucket("B"), PlainIdentity("s3", "B", "", "k"), None, None, None)
    requires body == CreateBody(name, Bucket("b"), None, None, None)
    ensures Consistent(map[0 := known]) && Fails(map[0 := known], id, body)
  {
    BucketsAreOne();
    BucketIdentity("B");
    BucketIdentity("b");
    hide ParseOlIdentity, PlainIdentity, HostName, Bucket, Fails, Consistent, HostChars, Lower;
    OneRowIsConsistent(known);
    OtherSpellingFails(map[0 := known], 0, id, body);
  }

  /** Deleting a row frees its source and its identity, and only those. */
  lemma DeletingFrees(t: Table, id: Id, again: Id, body: CreateBody)
    requires Consistent(t) && id in t && WellFormed(body) && ParseOlIdentity(body.source).Some?
    requires again == id || again !in t
    ensures Accepted(Next(t, Deleting(id)), again, body) <==>
      t[id].identity == ParseOlIdentity(body.source).value || !HasIdentity(t, ParseOlIdentity(body.source).value)
  {
    hide ParseOlIdentity, HasIdentity, Consistent, Accepted, WellFormed;
    var after := Next(t, Deleting(id));
    assert again !in after;
    hide Next;
    NextKeepsConsistent(t, Deleting(id));
    OnlyItsIdentityLeaves(t, id, ParseOlIdentity(body.source).value);
    AcceptedIffIdentityIsNew(after, again, body);
  }

  lemma OnlyItsIdentityLeaves(t: Table, id: Id, identity: Identity)
    requires Consistent(t) && id in t
    ensures HasIdentity(Next(t, Deleting(id)), identity) <==> HasIdentity(t, identity) && t[id].identity != identity
  {
    hide ParseOlIdentity;
    var after := Next(t, Deleting(id));
    if HasIdentity(t, identity) {
      var i :| i in t && t[i].identity == identity;
      if i != id { assert i in after && after[i].identity == identity; }
    }
  }
}
