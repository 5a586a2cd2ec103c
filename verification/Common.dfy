/** The entities shared by every part of the model: Group custom resources,
    backends, the ID cache and the state of the managed platforms. */
module Common {

  /** Why an operation stopped. Text of messages is not modelled. */
  datatype Failure =
    | MissingGroup(name: string)  // a Group CR could not be fetched
    | ApiFault                    // the Kubernetes API refused a write
    | InvalidBackend              // clients.New refused the backend
    | InvalidPattern              // a configured regular expression does not compile
    | NoPattern                   // no configured pattern matches the group name
    | BackendFault                // a backend call failed
    | DecodeFault                 // a cached value is not a JSON object of strings
    | CacheMiss                   // a key is absent where it has to be present
    | NoUserId                    // a cached entry has no ID for the backend
    | BackendsFailed              // some backend of the group could not be reconciled

  datatype Result<+T> = Ok(value: T) | Err(failure: Failure)

  datatype Option<+T> = None | Some(value: T)

  /** A backend as named in a Group spec; `kind` is the field `type`. */
  datatype Backend = Backend(name: string, kind: string)

  /** The key of a backend inside every cached JSON object. */
  function CacheKey(b: Backend): string {
    b.name + "_" + b.kind
  }

  /** A cached string: empty, undecodable, or a JSON object from backend keys to IDs. */
  datatype CacheValue = Blank | Garbled | Ids(ids: map<string, string>)

  type Cache = map<string, CacheValue>

  /** Go's map lookup: the zero value "" when the key is absent. */
  function IdAt(ids: map<string, string>, key: string): string {
    if key in ids then ids[key] else ""
  }

  /** The ID cached for a backend key under a name or an email; "" when there is none. */
  function CachedId(cache: Cache, entry: string, key: string): string {
    if entry in cache && cache[entry].Ids? then IdAt(cache[entry].ids, key) else ""
  }

  datatype OwnerRef = OwnerRef(apiVersion: string, kind: string, name: string, uid: string)

  datatype ConditionStatus = Unknown | True | False

  datatype Condition = Condition(kind: string, status: ConditionStatus, reason: string)

  datatype BackendStatus = BackendStatus(backend: Backend, ok: bool, failure: Option<Failure>)

  datatype GroupStatus = GroupStatus(
    reconciledUsers: seq<string>,
    conditions: seq<Condition>,
    lastAppliedGeneration: int,
    backends: seq<BackendStatus>)

  /** A Group custom resource of the operator's one namespace. */
  datatype GroupCR = GroupCR(
    uid: string,
    generation: int,
    groupName: string,
    users: seq<string>,
    groups: seq<string>,
    backends: seq<Backend>,
    deleting: bool,
    finalizer: bool,
    owners: seq<OwnerRef>,
    status: GroupStatus)

  /** The stored Group CRs by metadata name. */
  type Groups = map<string, GroupCR>

  /** The elements of a list. */
  function Elems<T>(s: seq<T>): set<T> {
    set x | x in s
  }

  /** No element is listed twice. */
  ghost predicate Distinct<T>(s: seq<T>) {
    forall i, j :: 0 <= i < j < |s| ==> s[i] != s[j]
  }

  lemma ElemsConcat<T>(a: seq<T>, b: seq<T>)
    ensures Elems(a + b) == Elems(a) + Elems(b)
  {
  }
}
