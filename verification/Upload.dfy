/** Resumable upload: the server's side of one artifact, the network between, and the builder's loop. */
module Upload {
  import opened Protocol

  type Bytes = seq<bv8>

  /** SHA-256 of a content; nothing is assumed of it. */
  type Digest = Bytes -> string

  // ---------------------------------------------------------------- server

  /** What the artifact directory holds of one file: the `.part` file, empty when there is none, and the final file. */
  datatype Slot = Slot(part: Bytes, stored: Option<Bytes>)

  const EMPTY_SLOT := Slot([], None)

  datatype UploadStatus = UploadStatus(size: nat, received: nat, complete: bool)

  datatype PutReply = Accepted(status: UploadStatus) | OffsetMismatch | ChunkInvalid | DigestMismatch

  function Status(slot: Slot, a: ArtifactRecord): UploadStatus {
    UploadStatus(a.size, if slot.stored.Some? then a.size else |slot.part|, slot.stored.Some?)
  }

  /** Append a chunk whose offset is what has been received; the last chunk is followed by the digest check. */
  function Put(sha: Digest, slot: Slot, a: ArtifactRecord, offset: nat, body: Bytes): (Slot, PutReply) {
    var status := Status(slot, a);
    if status.complete then (slot, Accepted(status))
    else if offset != status.received then (slot, OffsetMismatch)
    else if |body| == 0 || |body| > UPLOAD_CHUNK_BYTES || offset + |body| > a.size then (slot, ChunkInvalid)
    else
      var part := slot.part + body;
      if offset + |body| != a.size then (Slot(part, None), Accepted(Status(Slot(part, None), a)))
      else if sha(part) != a.sha256 then (Slot([], None), DigestMismatch)
      else (Slot([], Some(part)), Accepted(Status(Slot([], Some(part)), a)))
  }

  /** A `.part` file is shorter than the declared size; a final file has the declared size and digest. */
  ghost predicate SafeSlot(sha: Digest, slot: Slot, a: ArtifactRecord) {
    && |slot.part| < a.size
    && (slot.stored.Some? ==> |slot.stored.value| == a.size && sha(slot.stored.value) == a.sha256)
  }

  datatype Request = Request(offset: nat, body: Bytes)

  function Received(sha: Digest, a: ArtifactRecord, requests: seq<Request>): Slot {
    if |requests| == 0 then EMPTY_SLOT else
    var last := requests[|requests| - 1];
    Put(sha, Received(sha, a, requests[..|requests| - 1]), a, last.offset, last.body).0
  }

  /** Whatever requests arrive, in whatever order, from whatever client. */
  lemma {:induction false} AnyRequestsAreSafe(sha: Digest, a: ArtifactRecord, requests: seq<Request>)
    requires a.size > 0
    ensures SafeSlot(sha, Received(sha, a, requests), a)
  {
    if |requests| > 0 {
      AnyRequestsAreSafe(sha, a, requests[..|requests| - 1]);
    }
  }

  // ---------------------------------------------------------------- an honest builder

  /** The request carries the bytes that the builder's file has at that offset. */
  ghost predicate Honest(local: Bytes, r: Request) {
    r.offset + |r.body| <= |local| && r.body == local[r.offset..r.offset + |r.body|]
  }

  /** The builder's file is the one its record describes. */
  ghost predicate Describes(sha: Digest, a: ArtifactRecord, local: Bytes) {
    |local| == a.size > 0 && sha(local) == a.sha256
  }

  /** The server holds a proper prefix of the file, or the file. */
  ghost predicate Mirrors(slot: Slot, local: Bytes) {
    |slot.part| < |local| && slot.part <= local && (slot.stored.Some? ==> slot.stored.value == local)
  }

  function Progress(slot: Slot, a: ArtifactRecord): nat {
    Status(slot, a).received
  }

  /** An honest request keeps the prefix, never goes back, and never meets a digest mismatch. */
  lemma HonestPut(sha: Digest, slot: Slot, a: ArtifactRecord, local: Bytes, r: Request)
    requires Describes(sha, a, local) && Mirrors(slot, local) && Honest(local, r)
    ensures var (after, reply) := Put(sha, slot, a, r.offset, r.body);
            && Mirrors(after, local) && Progress(slot, a) <= Progress(after, a)
            && reply != DigestMismatch
            && (reply.Accepted? ==> reply.status == Status(after, a))
            && (reply == OffsetMismatch ==> r.offset != Progress(slot, a))
            && (reply.Accepted? && !reply.status.complete ==> reply.status.received == r.offset + |r.body|)
            && (reply == ChunkInvalid ==> |r.body| == 0 || |r.body| > UPLOAD_CHUNK_BYTES)
  {
    if slot.stored.None? && r.offset == |slot.part| {
      var part := slot.part + r.body;
      assert part == local[..|part|];
      if |part| == |local| { assert part == local; }
    }
  }

  /** Honest requests, lost, repeated or reordered, leave a prefix of the file or the file, and never undo progress. */
  lemma {:induction false} HonestHistory(sha: Digest, a: ArtifactRecord, local: Bytes, requests: seq<Request>, k: nat)
    requires Describes(sha, a, local) && (forall r <- requests :: Honest(local, r)) && k <= |requests|
    ensures Mirrors(Received(sha, a, requests), local)
    ensures Progress(Received(sha, a, requests[..k]), a) <= Progress(Received(sha, a, requests), a)
  {
    if |requests| > 0 {
      var before, last := requests[..|requests| - 1], requests[|requests| - 1];
      HonestHistory(sha, a, local, before, if k < |requests| then k else 0);
      HonestPut(sha, Received(sha, a, before), a, local, last);
      if k < |requests| { assert before[..k] == requests[..k]; } else { assert requests[..k] == requests; }
    }
  }

  /** The file cut into chunks, from an offset on. */
  function Chunks(file: Bytes, from: nat, chunkBytes: nat): seq<Request>
    requires from <= |file| && chunkBytes > 0
    decreases |file| - from
  {
    if from == |file| then [] else
    var length := if chunkBytes < |file| - from then chunkBytes else |file| - from;
    [Request(from, file[from..from + length])] + Chunks(file, from + length, chunkBytes)
  }

  lemma {:induction false} ReceivedMore(sha: Digest, a: ArtifactRecord, before: seq<Request>, r: Request)
    ensures Received(sha, a, before + [r]) == Put(sha, Received(sha, a, before), a, r.offset, r.body).0
  {
    assert (before + [r])[..|before|] == before;
  }

  /** Sending the chunks in order, from wherever the server is, stores exactly the file. */
  lemma {:induction false} ChunksStoreTheFile(sha: Digest, a: ArtifactRecord, file: Bytes, before: seq<Request>,
      from: nat, chunkBytes: nat)
    requires Describes(sha, a, file) && from < |file| && 0 < chunkBytes <= UPLOAD_CHUNK_BYTES
    requires Received(sha, a, before) == Slot(file[..from], None)
    ensures Received(sha, a, before + Chunks(file, from, chunkBytes)) == Slot([], Some(file))
    decreases |file| - from
  {
    var length := if chunkBytes < |file| - from then chunkBytes else |file| - from;
    var r := Request(from, file[from..from + length]);
    ReceivedMore(sha, a, before, r);
    assert file[..from] + r.body == file[..from + length];
    assert before + Chunks(file, from, chunkBytes) == (before + [r]) + Chunks(file, from + length, chunkBytes);
    if from + length < |file| {
      ChunksStoreTheFile(sha, a, file, before + [r], from + length, chunkBytes);
    } else {
      assert file[..|file|] == file;
      assert (before + [r]) + [] == before + [r];
    }
  }

  datatype Answer<T> = Answer(value: T) | Lost | Gone

  datatype UploadResult = Uploaded | Broken | Dropped | OffsetTooLarge | Refused

  /** One attempt's upload of one file: the server's slot, and the requests that the network may still deliver. */
  class Session {
    const sha: Digest
    const artifact: ArtifactRecord
    ghost const local: Bytes
    var slot: Slot
    var sent: set<Request>

    constructor (sha: Digest, artifact: ArtifactRecord, ghost local: Bytes)
      requires Describes(sha, artifact, local)
      ensures this.sha == sha && this.artifact == artifact && this.local == local && Valid()
    {
      this.sha, this.artifact, this.local, slot, sent := sha, artifact, local, EMPTY_SLOT, {};
    }

    ghost predicate Valid()
      reads this
    {
      Describes(sha, artifact, local) && Mirrors(slot, local) && forall r <- sent :: Honest(local, r)
    }

    /** The network delivers requests that were sent before, any number of times and in any order. */
    method Redeliver()
      requires Valid()
      modifies `slot
      ensures Valid() && old(Progress(slot, artifact)) <= Progress(slot, artifact)
    {
      var count: nat :| count >= 0;
      for i := 0 to count
        invariant Valid() && old(Progress(slot, artifact)) <= Progress(slot, artifact)
      {
        if sent != {} {
          var r :| r in sent;
          HonestPut(sha, slot, artifact, local, r);
          slot := Put(sha, slot, artifact, r.offset, r.body).0;
        }
      }
    }

    /** Ask how much the server has. The request or the reply may get lost; the attempt may be over. */
    method AskStatus() returns (answer: Answer<UploadStatus>)
      requires Valid()
      modifies `slot
      ensures Valid() && old(Progress(slot, artifact)) <= Progress(slot, artifact)
      ensures answer.Answer? ==>
                && answer.value.size == artifact.size && (answer.value.complete ==> slot.stored.Some?)
                && old(Progress(slot, artifact)) <= answer.value.received <= Progress(slot, artifact)
                && (if answer.value.complete then answer.value.received == artifact.size
                    else answer.value.received < artifact.size)
    {
      Redeliver();
      answer := Answer(Status(slot, artifact));
      Redeliver();
      if * { answer := Lost; } else if * { answer := Gone; }
    }

    /** Send a chunk. A lost request may still arrive later; a lost reply leaves the chunk received. */
    method SendChunk(offset: nat, body: Bytes) returns (answer: Answer<PutReply>)
      requires Valid() && Honest(local, Request(offset, body)) && offset <= Progress(slot, artifact)
      modifies `slot, `sent
      ensures Valid() && old(Progress(slot, artifact)) <= Progress(slot, artifact)
      ensures answer.Answer? ==>
                match answer.value
                case Accepted(status) =>
                  && status.received <= Progress(slot, artifact) && (status.complete ==> slot.stored.Some?)
                  && (if status.complete then status.received == artifact.size
                      else status.received == offset + |body| < artifact.size)
                case OffsetMismatch => offset < Progress(slot, artifact)
                case DigestMismatch => false
                case ChunkInvalid => |body| == 0 || |body| > UPLOAD_CHUNK_BYTES
    {
      Redeliver();
      sent := sent + {Request(offset, body)};
      if * {
        answer := Lost;
      } else {
        HonestPut(sha, slot, artifact, local, Request(offset, body));
        var (after, reply) := Put(sha, slot, artifact, offset, body);
        slot := after;
        answer := Answer(reply);
      }
      Redeliver();
      if * { answer := Lost; } else if * { answer := Gone; }
    }
  }

  /** The builder's loop: ask where the server is and send from there. The start over after a digest mismatch is never
      needed, because no mismatch is ever answered. */
  method UploadFile(s: Session, file: Bytes, chunkBytes: nat) returns (result: UploadResult)
    requires s.Valid() && file == s.local
    modifies s
    ensures s.Valid()
    ensures result == Uploaded ==> s.slot.stored == Some(file)
    ensures result == OffsetTooLarge ==> chunkBytes == 0
    ensures result == Refused ==> chunkBytes > UPLOAD_CHUNK_BYTES
  {
    var answer := s.AskStatus();
    if !answer.Answer? { return if answer.Lost? then Broken else Dropped; }
    var status := answer.value;
    while !status.complete
      invariant s.Valid() && status.received <= Progress(s.slot, s.artifact)
      invariant if status.complete then s.slot.stored.Some? && status.received == s.artifact.size
          else status.received < s.artifact.size
      decreases s.artifact.size - status.received
    {
      var offset := status.received;
      var left := s.artifact.size - offset;
      var length := if chunkBytes < left then chunkBytes else left;
      if length == 0 { return OffsetTooLarge; }
      var reply := s.SendChunk(offset, file[offset..offset + length]);
      if !reply.Answer? { return if reply.Lost? then Broken else Dropped; }
      match reply.value
      case Accepted(next) => status := next;
      case OffsetMismatch =>
        answer := s.AskStatus();
        if !answer.Answer? { return if answer.Lost? then Broken else Dropped; }
        status := answer.value;
      case DigestMismatch => assert false;
      case ChunkInvalid => return Refused;
    }
    result := Uploaded;
  }
}
