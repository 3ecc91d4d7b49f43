/** The service registry and URL dispatcher of the `NewPipe` facade: every
    lookup is a first-match-wins scan over the registry in registration
    order. The registry is an arbitrary sequence of services, and each
    service's URL classifier is an arbitrary total function. */
module Registry {
  import Wrappers

  /** Content category a service assigns to a URL; `NoMatch` is Java's
      `LinkType.NONE`, meaning "not mine". */
  datatype LinkType = Stream | Channel | Playlist | Comments | NoMatch

  datatype Service = Service(id: int, name: string, linkTypeOf: string -> LinkType)

  /** Why a lookup failed; each carries the argument NewPipe.java puts in the
      message of the `ExtractionException` it throws. */
  datatype LookupError =
    | NoServiceWithId(id: int)
    | NoServiceWithName(name: string)
    | NoServiceForUrl(url: string)

  type Lookup = Wrappers.Result<Service, LookupError>

  /** Placeholder name reported for an unknown service id. */
  const UnknownName: string := "<unknown>"

  /** Id reported for an unknown service name. */
  const UnknownId: int := -1

  /** Index of the first element satisfying `p`, or `|s|` when there is none:
      the position where the for-each loops of NewPipe.java return. */
  function FirstIndex<T>(s: seq<T>, p: T -> bool): (i: nat)
    ensures i <= |s|
    ensures forall j :: 0 <= j < i ==> !p(s[j])
    ensures i < |s| ==> p(s[i])
  {
    if |s| == 0 || p(s[0]) then 0
    else
      var k := FirstIndex(s[1..], p);
      assert forall j :: 1 <= j < 1 + k ==> s[j] == s[1..][j - 1];
      1 + k
  }

  /** `getService(int)`: the first service whose id is `id`. */
  function ServiceById(reg: seq<Service>, id: int): (r: Lookup)
    ensures r.Success? <==> exists i :: 0 <= i < |reg| && reg[i].id == id
    ensures r.Success? ==>
      exists i :: 0 <= i < |reg| && reg[i] == r.value && r.value.id == id
        && forall j :: 0 <= j < i ==> reg[j].id != id
    ensures r.Failure? ==> r.error == NoServiceWithId(id)
  {
    var i := FirstIndex(reg, (s: Service) => s.id == id);
    if i < |reg| then Wrappers.Success(reg[i]) else Wrappers.Failure(NoServiceWithId(id))
  }

  /** `getService(String)`: the first service whose name equals `name`. */
  function ServiceByName(reg: seq<Service>, name: string): (r: Lookup)
    ensures r.Success? <==> exists i :: 0 <= i < |reg| && reg[i].name == name
    ensures r.Success? ==>
      exists i :: 0 <= i < |reg| && reg[i] == r.value && r.value.name == name
        && forall j :: 0 <= j < i ==> reg[j].name != name
    ensures r.Failure? ==> r.error == NoServiceWithName(name)
  {
    var i := FirstIndex(reg, (s: Service) => s.name == name);
    if i < |reg| then Wrappers.Success(reg[i]) else Wrappers.Failure(NoServiceWithName(name))
  }

  /** `getServiceByUrl`: the first service that recognises `url`. */
  function ServiceByUrl(reg: seq<Service>, url: string): (r: Lookup)
    ensures r.Success? <==> exists i :: 0 <= i < |reg| && reg[i].linkTypeOf(url) != NoMatch
    ensures r.Success? ==>
      exists i :: 0 <= i < |reg| && reg[i] == r.value && r.value.linkTypeOf(url) != NoMatch
        && forall j :: 0 <= j < i ==> reg[j].linkTypeOf(url) == NoMatch
    ensures r.Failure? ==> r.error == NoServiceForUrl(url)
  {
    var i := FirstIndex(reg, (s: Service) => s.linkTypeOf(url) != NoMatch);
    if i < |reg| then Wrappers.Success(reg[i]) else Wrappers.Failure(NoServiceForUrl(url))
  }

  /** `getIdOfService`: the id of the first service named `name`, or -1. */
  function IdOfService(reg: seq<Service>, name: string): (r: int)
    ensures (forall i :: 0 <= i < |reg| ==> reg[i].name != name) ==> r == UnknownId
    ensures forall i ::
      (0 <= i < |reg| && reg[i].name == name && forall j :: 0 <= j < i ==> reg[j].name != name)
      ==> r == reg[i].id
  {
    match ServiceByName(reg, name)
    case Success(s) => s.id
    case Failure(_) => UnknownId
  }

  /** `getNameOfService`: the name of the first service with id `id`, or
      the placeholder `"<unknown>"`. */
  function NameOfService(reg: seq<Service>, id: int): (r: string)
    ensures (forall i :: 0 <= i < |reg| ==> reg[i].id != id) ==> r == UnknownName
    ensures forall i ::
      (0 <= i < |reg| && reg[i].id == id && forall j :: 0 <= j < i ==> reg[j].id != id)
      ==> r == reg[i].name
  {
    match ServiceById(reg, id)
    case Success(s) => s.name
    case Failure(_) => UnknownName
  }

  ghost predicate UniqueIds(reg: seq<Service>) {
    forall i, j :: 0 <= i < j < |reg| ==> reg[i].id != reg[j].id
  }

  ghost predicate UniqueNames(reg: seq<Service>) {
    forall i, j :: 0 <= i < j < |reg| ==> reg[i].name != reg[j].name
  }

  /** Looking a registered service up by its own id finds that very service
      when ids are unique: `getService(int)` is a left inverse of
      registration. */
  lemma ServiceByOwnId(reg: seq<Service>, k: int)
    requires UniqueIds(reg)
    requires 0 <= k < |reg|
    ensures ServiceById(reg, reg[k].id) == Wrappers.Success(reg[k])
  {
  }

  /** Likewise for names when names are unique. */
  lemma ServiceByOwnName(reg: seq<Service>, k: int)
    requires UniqueNames(reg)
    requires 0 <= k < |reg|
    ensures ServiceByName(reg, reg[k].name) == Wrappers.Success(reg[k])
  {
  }

  /** name -> id -> name is the identity on registered names; only the ids
      need to be unique (repeated names resolve to the first one). */
  lemma NameIdNameRoundTrip(reg: seq<Service>, name: string)
    requires UniqueIds(reg)
    requires exists i :: 0 <= i < |reg| && reg[i].name == name
    ensures NameOfService(reg, IdOfService(reg, name)) == name
  {
  }

  /** id -> name -> id is the identity on registered ids; only the names
      need to be unique. */
  lemma IdNameIdRoundTrip(reg: seq<Service>, id: int)
    requires UniqueNames(reg)
    requires exists i :: 0 <= i < |reg| && reg[i].id == id
    ensures IdOfService(reg, NameOfService(reg, id)) == id
  {
  }

  /** The sentinel -1 means "no such name" exactly when no registered
      service itself uses the id -1. */
  lemma UnknownIdMeansAbsent(reg: seq<Service>, name: string)
    requires forall i :: 0 <= i < |reg| ==> reg[i].id != UnknownId
    ensures IdOfService(reg, name) == UnknownId
        <==> forall i :: 0 <= i < |reg| ==> reg[i].name != name
  {
  }

  /** The placeholder `"<unknown>"` means "no such id" exactly when no
      registered service is itself named `"<unknown>"`. */
  lemma UnknownNameMeansAbsent(reg: seq<Service>, id: int)
    requires forall i :: 0 <= i < |reg| ==> reg[i].name != UnknownName
    ensures NameOfService(reg, id) == UnknownName
        <==> forall i :: 0 <= i < |reg| ==> reg[i].id != id
  {
  }

  /** A first match in a prefix stays the first match after more elements
      are appended; otherwise the search continues into the suffix. */
  lemma {:induction false} FirstIndexAppend<T>(s: seq<T>, t: seq<T>, p: T -> bool)
    ensures FirstIndex(s + t, p) ==
      (if FirstIndex(s, p) < |s| then FirstIndex(s, p) else |s| + FirstIndex(t, p))
  {
    if |s| == 0 {
      assert s + t == t;
    } else if !p(s[0]) {
      assert (s + t)[1..] == s[1..] + t;
      FirstIndexAppend(s[1..], t, p);
    }
  }

  /** Registering more services after the existing ones never changes which
      service a URL is dispatched to once some existing service claims it:
      first match wins. */
  lemma DispatchStableUnderAppend(reg: seq<Service>, more: seq<Service>, url: string)
    requires ServiceByUrl(reg, url).Success?
    ensures ServiceByUrl(reg + more, url) == ServiceByUrl(reg, url)
  {
    var p := (s: Service) => s.linkTypeOf(url) != NoMatch;
    FirstIndexAppend(reg, more, p);
    assert (reg + more)[FirstIndex(reg, p)] == reg[FirstIndex(reg, p)];
  }

  /** When exactly one service claims a URL, dispatch does not depend on
      the registry order: whichever service claims it is the one returned. */
  lemma DispatchToSoleClaimant(reg: seq<Service>, url: string, k: int)
    requires 0 <= k < |reg| && reg[k].linkTypeOf(url) != NoMatch
    requires forall j :: 0 <= j < |reg| && j != k ==> reg[j].linkTypeOf(url) == NoMatch
    ensures ServiceByUrl(reg, url) == Wrappers.Success(reg[k])
  {
  }
}
