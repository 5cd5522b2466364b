/// Stored events (src/core/nostr/event.ts, src/core/storage/event-repository.ts).
module Events {
  import opened Wrappers

  datatype Event = Event(
    id: Option<string>,
    kind: int,
    pubkey: string,
    createdAt: int,
    tags: seq<seq<string>>,
    content: string,
    sig: string)

  function Created(e: Event): real {
    e.createdAt as real
  }
}
