/** `TenantAuthorizer.Authorize`: decides whether a (directory, user, password)
    triple may bind the directory, from one read of the credential records kept in
    the authorization subspace. The read is the only store access. */
module Tenancy {
  import opened Wrappers
  import opened Bytes

  /** First element of every credential tuple. */
  const TenantsTag := "tenants"

  /** The packed key `authDir.Pack(tuple.Tuple{"tenants", directory, user, password})`.
      Its byte layout is left abstract; a datatype makes it injective. */
  datatype CredentialKey = CredentialKey(subspace: Bytes, tag: string, directory: Bytes, user: Bytes, password: Bytes)

  function LookupKey(authDir: Bytes, directory: Bytes, user: Bytes, password: Bytes): CredentialKey {
    CredentialKey(authDir, TenantsTag, directory, user, password)
  }

  /** `tn.Get(k).Get()` on the credential records: nil for an absent key, and
      nil alongside any read error. */
  function ReadRecord(records: map<CredentialKey, Bytes>, readError: Option<string>, k: CredentialKey): Option<Bytes> {
    if readError.None? && k in records then Some(records[k]) else None
  }

  /** `subtle.ConstantTimeCompare(v, password) == 1`; a nil slice compares as empty. */
  function ConstantTimeEqual(v: Option<Bytes>, password: Bytes): bool {
    (if v.Some? then v.value else []) == password
  }

  /** The verdict `Authorize` returns: the boolean and the error. */
  datatype Verdict = Verdict(authorized: bool, err: Option<string>)

  /** `Authorize` as written: authorized when the read succeeds and the stored value,
      nil when absent, equals the password; any read error is returned beside `false`. */
  function Authorize(authDir: Bytes, records: map<CredentialKey, Bytes>, readError: Option<string>,
                     directory: Bytes, user: Bytes, password: Bytes): (r: Verdict)
    ensures r.err == readError
    ensures r.authorized <==>
              readError.None? &&
              (var k := LookupKey(authDir, directory, user, password);
               if k in records then records[k] == password else password == [])
  {
    var v := ReadRecord(records, readError, LookupKey(authDir, directory, user, password));
    if readError.None? && ConstantTimeEqual(v, password) then Verdict(true, None)
    else Verdict(false, readError)
  }

  /** A wrong password is refused without an error, even for a provisioned user. */
  lemma WrongPasswordRefused(authDir: Bytes, records: map<CredentialKey, Bytes>,
                             directory: Bytes, user: Bytes, password: Bytes)
    requires LookupKey(authDir, directory, user, password) in records
    requires records[LookupKey(authDir, directory, user, password)] != password
    ensures Authorize(authDir, records, None, directory, user, password) == Verdict(false, None)
  {
  }

  /** A read error refuses and is handed back unchanged. */
  lemma ReadErrorPropagates(authDir: Bytes, records: map<CredentialKey, Bytes>, e: string,
                            directory: Bytes, user: Bytes, password: Bytes)
    ensures Authorize(authDir, records, Some(e), directory, user, password) == Verdict(false, Some(e))
  {
  }

  /** The empty password is authorized for any directory and user that has no record
      at all: the absent value compares equal to it. */
  lemma EmptyPasswordWithoutRecordAuthorized(authDir: Bytes, directory: Bytes, user: Bytes)
    ensures Authorize(authDir, map[], None, directory, user, []) == Verdict(true, None)
  {
  }

  /** The authorization the credential scheme evidently intends: a record must exist
      under the key built from the attempted password, and hold that password. */
  function AuthorizeRecorded(authDir: Bytes, records: map<CredentialKey, Bytes>, readError: Option<string>,
                             directory: Bytes, user: Bytes, password: Bytes): (r: Verdict)
    ensures r.err == readError
    ensures r.authorized <==>
              readError.None? &&
              (var k := LookupKey(authDir, directory, user, password);
               k in records && records[k] == password)
  {
    var k := LookupKey(authDir, directory, user, password);
    var v := ReadRecord(records, readError, k);
    if readError.None? && v.Some? && ConstantTimeEqual(v, password) then Verdict(true, None)
    else Verdict(false, readError)
  }

  /** Records as provisioning writes them: each holds the password its key names. */
  predicate Provisioned(records: map<CredentialKey, Bytes>) {
    forall k :: k in records ==> records[k] == k.password
  }

  /** With provisioned records, the corrected authorizer accepts exactly the triples
      that were provisioned, and never anything else, the empty password included. */
  lemma AuthorizeRecordedIffProvisioned(authDir: Bytes, records: map<CredentialKey, Bytes>,
                                        directory: Bytes, user: Bytes, password: Bytes)
    requires Provisioned(records)
    ensures AuthorizeRecorded(authDir, records, None, directory, user, password).authorized <==>
              LookupKey(authDir, directory, user, password) in records
    ensures Authorize(authDir, records, None, directory, user, password).authorized <==>
              LookupKey(authDir, directory, user, password) in records || password == []
  {
  }

  /** The two authorizers differ only on the empty password with no record. */
  lemma AuthorizersDifferOnlyOnMissingEmptyPassword(authDir: Bytes, records: map<CredentialKey, Bytes>,
                                                    readError: Option<string>,
                                                    directory: Bytes, user: Bytes, password: Bytes)
    ensures (Authorize(authDir, records, readError, directory, user, password)
               != AuthorizeRecorded(authDir, records, readError, directory, user, password)) <==>
            readError.None? && password == [] && LookupKey(authDir, directory, user, password) !in records
  {
  }
}
