/** The domain records of the coordinator. MLS payloads are opaque bytes and the
    signed publication event is opaque text: nothing here looks inside them. */
module Records {
  import opened Seqs

  type Name = string

  type byte = x: int | 0 <= x < 256

  type Bytes = seq<byte>

  datatype KeyPackage = KeyPackage(
    stablePubkey: Name, bytes: Bytes, kpRef: Name, isLastResort: bool, publishedAt: int, event: string)

  datatype Welcome = Welcome(
    target: Name, kpRef: Name, bytes: Bytes, createdAt: int, joinAfterCursor: Option<int>)

  datatype ConsumedWelcome = ConsumedWelcome(kpRef: Name, createdAt: int)

  datatype JoinRequest = JoinRequest(groupId: Name, requester: Name, kpRef: Name, createdAt: int)

  datatype ConsumedJoin = ConsumedJoin(requester: Name, createdAt: int)

  datatype ConsumedGroupJoin = ConsumedGroupJoin(groupId: Name, requester: Name, createdAt: int)

  datatype Message = Message(cursor: int, groupId: Name, payload: Bytes, createdAt: int)

  datatype FetchInput = FetchInput(groupId: Name, afterCursor: Option<int>) {
    /** A missing cursor means "from the start". */
    function After(): int {
      if afterCursor.None? then 0 else afterCursor.value
    }
  }

  datatype StorageError = Backend | TooManyPendingJoinRequests

  function OfGroup(g: Name): Message -> bool {
    (m: Message) => m.groupId == g
  }

  function InGroups(gs: set<Name>): Message -> bool {
    (m: Message) => m.groupId in gs
  }

  function Above(c: int): Message -> bool {
    (m: Message) => m.cursor > c
  }
}
