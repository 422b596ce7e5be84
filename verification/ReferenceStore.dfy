/**
 The in-memory reference store. It keeps one record per binding; the ghost histories show
 that its swap is exactly the one the protocol assumes of a store that never leaves its
 caller in doubt.
 */
module ReferenceStore {
  import opened CredentialIdentity
  import opened SecretRecords
  import opened RotationProtocol

  class InMemoryStore {
    var records: map<Binding, Record>
    ghost var histories: map<Binding, seq<Record>>

    ghost predicate Valid()
      reads this
    {
      && histories.Keys == records.Keys
      && forall b :: b in records ==>
           histories[b] != [] && records[b] == histories[b][|histories[b]| - 1] && records[b].binding == b
    }

    constructor ()
      ensures Valid() && records == map[]
    {
      records, histories := map[], map[];
    }

    method Seed(binding: Binding, secret: string) returns (r: Result<Record>)
      requires Valid()
      modifies this
      ensures Valid()
      ensures match r
              case Ok(record) =>
                && binding !in old(records) && NonBlank(secret)
                && record == Start(binding, secret).Current() && record.WellFormed()
                && histories == old(histories)[binding := Start(binding, secret).history]
              case Err(e) =>
                && (if NonBlank(secret) then e == VersionConflict && binding in old(records) else e == InvalidArgument)
                && records == old(records) && histories == old(histories)
    {
      if !NonBlank(secret) {
        return Err(InvalidArgument);
      }
      var record := Record(binding, 0, Ready, Some(secret), 0, None, None, None);
      if binding in records {
        return Err(VersionConflict);
      }
      records := records[binding := record];
      histories := histories[binding := [record]];
      return Ok(record);
    }

    method Read(binding: Binding) returns (r: Option<Record>)
      requires Valid()
      ensures r == if binding in histories then Some(histories[binding][|histories[binding]| - 1]) else None
    {
      r := if binding in records then Some(records[binding]) else None;
    }

    /**
     Acknowledged exactly where the protocol lets a swap be acknowledged, and then the
     history is the protocol's; refused exactly where it is refused, and nothing changes.
     */
    method CompareAndSwap(binding: Binding, expected: nat, replacement: Record) returns (r: Result<Record>)
      requires Valid()
      modifies this
      ensures Valid()
      ensures match r
              case Ok(saved) =>
                && saved == replacement && binding in old(histories)
                && replacement.binding == binding && replacement.version == expected + 1
                && var before := System(old(histories)[binding], {}, map[], []);
                   var after := Submit(before, Write(expected, replacement), Acknowledged);
                   after.Some? && histories == old(histories)[binding := after.value.history]
              case Err(e) =>
                && records == old(records) && histories == old(histories)
                && (if replacement.binding != binding || replacement.version != expected + 1 then e == InvalidArgument
                    else e == VersionConflict
                         && (binding in histories ==>
                               Submit(System(histories[binding], {}, map[], []),
                                      Write(expected, replacement), Refused).Some?))
    {
      if replacement.binding != binding || replacement.version != expected + 1 {
        return Err(InvalidArgument);
      }
      if binding !in records || records[binding].version != expected {
        return Err(VersionConflict);
      }
      records := records[binding := replacement];
      histories := histories[binding := histories[binding] + [replacement]];
      return Ok(replacement);
    }
  }
}
