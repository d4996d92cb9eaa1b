/** The abstract `Base` document every model of the service derives from: an
    `is_active` flag that defaults to true, and the `created_at`/`updated_at`
    timestamps its commit hooks set. */
module ModelBase {
  import opened Wrappers
  import opened Documents

  /** `is_active = BooleanField(default=True)`: building a document from data
      without `is_active` makes it active; everything else is taken as given. */
  function WithDefaults(data: Fields): (r: Fields)
    ensures "is_active" in r
    ensures r["is_active"] == if "is_active" in data then data["is_active"] else Bool(true)
    ensures forall k :: k in data ==> k in r && (k != "is_active" ==> r[k] == data[k])
    ensures forall k :: k in r ==> k in data || k == "is_active"
  {
    if "is_active" in data then data else data["is_active" := Bool(true)]
  }

  /** What `pre_insert` leaves: both timestamps read from the clock, the other
      fields untouched. */
  function InsertStamped(data: Fields, now: Time): (r: Fields)
    ensures "created_at" in r && r["created_at"] == Date(now)
    ensures "updated_at" in r && r["updated_at"] == Date(now)
    ensures forall k :: k in data && k != "created_at" && k != "updated_at" ==> k in r && r[k] == data[k]
    ensures r.Keys == data.Keys + {"created_at", "updated_at"}
  {
    data["created_at" := Date(now)]["updated_at" := Date(now)]
  }

  /** What `pre_update` leaves: `updated_at` read from the clock and every other
      field, `created_at` included, untouched. */
  function UpdateStamped(data: Fields, now: Time): (r: Fields)
    ensures "updated_at" in r && r["updated_at"] == Date(now)
    ensures forall k :: k in data && k != "updated_at" ==> k in r && r[k] == data[k]
    ensures r.Keys == data.Keys + {"updated_at"}
  {
    data["updated_at" := Date(now)]
  }

  /** A document object as the ODM holds it in memory before and after it is
      committed. `modified` holds the fields set since the document was loaded
      or last written; a written document with none is not written again. */
  class Document {
    var id: Option<Id>
    var data: Fields
    var isCreated: bool
    var modified: set<string>

    /** A document has an `_id` exactly when it has been written. */
    ghost predicate Valid()
      reads this
    {
      isCreated <==> id.Some?
    }

    /** `Model(**data)`: a new, not yet written document. */
    constructor (input: Fields)
      ensures Valid()
      ensures id == None && !isCreated && data == WithDefaults(input)
    {
      id := None;
      isCreated := false;
      data := WithDefaults(input);
      modified := {};
    }

    /** The document `find_one` hands back for a stored record: written, and
        with nothing modified yet. */
    constructor Loaded(e: Entry)
      ensures Valid()
      ensures id == Some(e.id) && isCreated && data == e.fields && modified == {}
    {
      id := Some(e.id);
      isCreated := true;
      data := e.fields;
      modified := {};
    }

    method PreInsert(now: Time)
      modifies this`data
      ensures data == InsertStamped(old(data), now)
    {
      data := data["created_at" := Date(now)];
      data := data["updated_at" := Date(now)];
    }

    method PreUpdate(now: Time)
      modifies this`data
      ensures data == UpdateStamped(old(data), now)
    {
      data := data["updated_at" := Date(now)];
    }

    /** `update(patch)`: every key of the patch is set on the document and
        marked as modified, whether or not its value changes. */
    method Update(patch: Fields)
      modifies this`data, this`modified
      ensures data == old(data) + patch
      ensures modified == old(modified) + patch.Keys
    {
      data := data + patch;
      modified := modified + patch.Keys;
    }
  }
}
