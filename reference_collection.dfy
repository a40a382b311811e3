/** The collections of the database and fresh-id generation
    (`ReferenceCollection.ts`). */
module ReferenceCollection {
  import opened Js

  /** The paths of the Firestore collections the core uses. `wristBandCollection`
      is read by `WristBand.ts` but missing from the record type; it is kept here
      as the collection that code expects. The Realtime Database counters and the
      database handles are not collections and are left out. */
  datatype Collections = Collections(
    usersCollection: string,
    eventsCollection: string,
    ticketsCollection: string,
    ticketTypesCollection: string,
    reservationsCollection: string,
    adminCollection: string,
    roomsCollection: string,
    tracksCollection: string,
    wristBandCollection: string)

  /** `newRandomID`: draws ids from the uuid source `draws`, in order, until one
      names no document of the collection, and returns it. The collection is only
      read. The source retries without bound; here an exhausted source gives None. */
  method NewRandomID(db: Firestore, collection: string, draws: seq<string>) returns (id: Option<string>)
    ensures id.Some? ==> DocRef(collection, id.value) !in db.docs
    ensures id.Some? ==> exists i :: 0 <= i < |draws| && draws[i] == id.value &&
                                     forall j :: 0 <= j < i ==> DocRef(collection, draws[j]) in db.docs
    ensures id.None? <==> forall i :: 0 <= i < |draws| ==> DocRef(collection, draws[i]) in db.docs
  {
    for i := 0 to |draws|
      invariant forall j :: 0 <= j < i ==> DocRef(collection, draws[j]) in db.docs
    {
      var candidate := draws[i];
      if DocRef(collection, candidate) !in db.docs {
        return Some(candidate);
      }
    }
    return None;
  }

  /** `newRandomIDDocument`: a reference, in the collection, to a document that
      does not exist yet. */
  method NewRandomIDDocument(db: Firestore, collection: string, draws: seq<string>) returns (ref: Option<DocRef>)
    ensures ref.Some? ==> ref.value.collection == collection && ref.value !in db.docs && ref.value.id in draws
    ensures ref.None? <==> forall i :: 0 <= i < |draws| ==> DocRef(collection, draws[i]) in db.docs
  {
    var id := NewRandomID(db, collection, draws);
    if id.None? {
      return None;
    }
    return Some(DocRef(collection, id.value));
  }
}
