// src/repo.rs: the repository's contract, and the in-memory implementation that does each update
// under one lock.
module Repo {
  import opened Wrappers
  import opened Crd
  import opened Bookkeeping

  datatype RepoError = NotFound | Conflict | Kube

  /** An audit record, before its note is rendered as text. */
  datatype AuditEvent =
    | RotationRecorded(actor: Actor, at: Timestamp, expiresAt: Option<Timestamp>)
    | RotationRejected(actor: Actor, detail: string)
    | KeyRotated(actor: Actor, written: nat)
    | RotationFailed(actor: Actor, failed: seq<string>)

  function WithMutation(key: ApiKey, m: Mutation): ApiKey {
    key.(status := Some(Apply(m, StatusOf(key))))
  }

  /** An update seen from outside: one indivisible change of the named key. */
  function UpdatedKeys(keys: map<string, ApiKey>, name: string, m: Mutation): map<string, ApiKey> {
    if name in keys then keys[name := WithMutation(keys[name], m)] else keys
  }

  class MemoryRepository {
    var keys: map<string, ApiKey>
    var events: seq<(string, AuditEvent)>

    constructor ()
      ensures keys == map[] && events == []
    {
      keys, events := map[], [];
    }

    method Insert(name: string, key: ApiKey)
      modifies this`keys
      ensures keys == old(keys)[name := key]
    {
      keys := keys[name := key];
    }

    method Get(name: string) returns (key: Option<ApiKey>)
      ensures key == if name in keys then Some(keys[name]) else None
    {
      key := if name in keys then Some(keys[name]) else None;
    }

    method UpdateStatus(name: string, m: Mutation) returns (reply: Result<ApiKey, RepoError>)
      modifies this`keys
      ensures keys == UpdatedKeys(old(keys), name, m)
      ensures reply == if name in old(keys) then Ok(keys[name]) else Err(NotFound)
    {
      if name !in keys {
        return Err(NotFound);
      }
      var updated := keys[name];
      var status := new StatusRecord(StatusOf(updated));
      status.Mutate(m);
      updated := updated.(status := Some(status.Value()));
      keys := keys[name := updated];
      return Ok(updated);
    }

    method RecordEvent(name: string, event: AuditEvent)
      modifies this`events
      ensures events == old(events) + [(name, event)]
    {
      events := events + [(name, event)];
    }
  }
}
