/**
 The durable refresh-secret record, the replacements each operation writes, and the
 edges of the record's life. Error values carry the fixed outward code of the program.
 */
module SecretRecords {
  import opened CredentialIdentity

  datatype RecordState = Ready | Refreshing | BlockedAuth | BlockedAmbiguous | Revoked

  datatype FailureCode =
    | RefreshRejected
    | RefreshOutcomeAmbiguous
    | RefreshResponseInvalid
    | StoreCommitAmbiguous
    | SourceRevoked

  /** `^[A-Za-z0-9][A-Za-z0-9._:-]{0,127}$`, used with fullmatch. */
  predicate SafeAttemptId(id: string) {
    1 <= |id| <= 128 && Alphanumeric(id[0]) && forall i :: 1 <= i < |id| ==> Alphanumeric(id[i]) || id[i] in "._:-"
  }

  predicate Alphanumeric(c: char) {
    'A' <= c <= 'Z' || 'a' <= c <= 'z' || '0' <= c <= '9'
  }

  datatype Record = Record(
    binding: Binding,
    version: nat,
    state: RecordState,
    secret: Option<string>,
    generation: nat,
    active: Option<string>,
    last: Option<string>,
    failure: Option<FailureCode>)
  {
    /** The checks `RefreshSecretRecord.__post_init__` makes; types make the rest. */
    predicate WellFormed() {
      && (if state == Revoked then secret == None else secret.Some? && NonBlank(secret.value))
      && (if state == Refreshing then active.Some? && SafeAttemptId(active.value) else active == None)
      && (last.Some? ==> SafeAttemptId(last.value))
    }

    // The replacements, each built from the record the writer has read.

    function Claimed(attempt: string): Record {
      this.(version := version + 1, state := Refreshing, active := Some(attempt), failure := None)
    }

    function Blocked(attempt: string, to: RecordState, why: FailureCode): Record {
      this.(version := version + 1, state := to, active := None, last := Some(attempt), failure := Some(why))
    }

    function Committed(attempt: string, rotated: string): Record {
      this.(version := version + 1, state := Ready, secret := Some(rotated), generation := generation + 1,
            active := None, last := Some(attempt), failure := None)
    }

    function RecoveredNotApplied(): Record {
      this.(version := version + 1, state := Ready, active := None, failure := None)
    }

    function RecoveredRotated(rotated: string): Record {
      this.(version := version + 1, state := Ready, secret := Some(rotated), generation := generation + 1,
            active := None, failure := None)
    }

    function RevokedNow(): Record {
      this.(version := version + 1, state := Revoked, secret := None, active := None, failure := Some(SourceRevoked))
    }
  }

  /**
   The life of one record, as successive versions may differ: ready to refreshing under a
   new attempt; refreshing to ready one generation on, or to a block recorded under its
   attempt; an ambiguous block to ready, on the same generation with the same secret or on
   the next one with another; and anything not revoked to revoked. Nothing leaves revoked.
   */
  ghost predicate Edge(before: Record, after: Record) {
    && before.WellFormed() && after.WellFormed()
    && after.version == before.version + 1
    && after.binding == before.binding
    && match (before.state, after.state)
       case (Ready, Refreshing) =>
         && after.active.Some? && after.secret == before.secret
         && after.generation == before.generation && after.last == before.last && after.failure == None
       case (Refreshing, Ready) =>
         after.generation == before.generation + 1 && after.last == before.active && after.failure == None
       case (Refreshing, BlockedAuth) =>
         && after.secret == before.secret && after.generation == before.generation
         && after.last == before.active && after.failure == Some(RefreshRejected)
       case (Refreshing, BlockedAmbiguous) =>
         && after.secret == before.secret && after.generation == before.generation
         && after.last == before.active
         && after.failure in {Some(RefreshOutcomeAmbiguous), Some(RefreshResponseInvalid), Some(StoreCommitAmbiguous)}
       case (BlockedAmbiguous, Ready) =>
         && after.last == before.last && after.failure == None
         && (after.generation == before.generation + 1
             || (after.generation == before.generation && after.secret == before.secret))
       case (_, Revoked) =>
         && before.state != Revoked && after.generation == before.generation && after.last == before.last
         && after.failure == Some(SourceRevoked)
       case (_, _) => false
  }

  /** The fixed codes of `CredentialAuthBlocked`. */
  datatype AuthCode =
    | BindingMismatch
    | SecretStoreUnavailable
    | AuthUnavailable
    | OutcomeAmbiguous
    | RejectedByProvider
    | RefreshAttemptInvalid
    | RefreshClaimAmbiguous
    | RefreshRecoveryStateUncertain
    | RefreshPersistenceAmbiguous
    | RefreshPersistenceConflict
    | AmbiguousRecoveryPreconditionFailed
    | RecoveryPersistenceAmbiguous
    | RevokePersistenceAmbiguous
    | RevokePersistenceConflict

  datatype Error =
    | AuthBlocked(code: AuthCode)
    | CredentialRevoked
    | InProgress
    | VersionConflict
    | InvalidArgument
    | StoreFailure
    | Interrupted(kind: Interrupt)

  datatype Interrupt = KeyboardInterrupt | SystemExit

  datatype Result<+T> = Ok(value: T) | Err(error: Error)
}
