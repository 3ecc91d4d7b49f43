/** The process-wide localization state of the `NewPipe` facade: the
    downloader, the preferred localization and the preferred content
    country, each a static field that may be null. The static fields become
    an explicit state value and each operation a function: `init(d)` and
    `init(d, l, c)` build a new state from their arguments alone, the two
    setters map a state to a state, and `init(d, l)` and both
    `setupLocalization` overloads return a `Completion`: the new state, and
    whether the call threw. */
module Facade {
  import opened Wrappers
  import opened Locale

  /** The host application's network capability, as an opaque token. */
  datatype Downloader = Downloader(handle: nat)

  datatype State = State(
    downloader: Option<Downloader>,
    localization: Option<Localization>,
    contentCountry: Option<ContentCountry>)

  /** The static fields before any call: all null. */
  const Uninitialized: State := State(None, None, None)

  /** How a mutating call completes: normally, or by dereferencing a null
      localization, in which case the assignments made before the
      dereference have already taken effect. */
  datatype Completion = Normal(state: State) | NullPointer(state: State)

  /** `getPreferredLocalization`: total, an unset field reads as the default. */
  function PreferredLocalization(s: State): (l: Localization)
    ensures s.localization.Some? ==> l == s.localization.value
    ensures s.localization.None? ==> l == DefaultLocalization
  {
    s.localization.GetOr(DefaultLocalization)
  }

  /** `getPreferredContentCountry`: total, an unset field reads as the default. */
  function PreferredContentCountry(s: State): (c: ContentCountry)
    ensures s.contentCountry.Some? ==> c == s.contentCountry.value
    ensures s.contentCountry.None? ==> c == DefaultContentCountry
  {
    s.contentCountry.GetOr(DefaultContentCountry)
  }

  /** `init(Downloader)`: the previous state plays no part. */
  function Init(d: Option<Downloader>): (r: State)
    ensures r.downloader == d
    ensures PreferredLocalization(r) == DefaultLocalization
    ensures PreferredContentCountry(r) == DefaultContentCountry
    ensures r.localization.Some? && r.contentCountry.Some?
  {
    State(d, Some(DefaultLocalization), Some(DefaultContentCountry))
  }

  /** `init(Downloader, Localization)`: the country follows the
      localization. A null localization is dereferenced after the downloader
      and the localization field have been assigned, so the call throws with
      those two fields changed and the country field as it was. */
  function InitWithLocalization(s: State, d: Option<Downloader>, l: Option<Localization>)
    : (r: Completion)
    ensures r.state.downloader == d
    ensures r.state.localization == l
    ensures r.NullPointer? <==> l.None?
    ensures r.Normal? ==> PreferredContentCountry(r.state) == CountryOf(l.value)
    ensures r.NullPointer? ==> r.state.contentCountry == s.contentCountry
  {
    match l
    case None => NullPointer(State(d, None, s.contentCountry))
    case Some(loc) => Normal(State(d, l, Some(CountryOf(loc))))
  }

  /** `init(Downloader, Localization, ContentCountry)`: all three exactly as
      given; the previous state plays no part. */
  function InitWithAll(d: Option<Downloader>, l: Option<Localization>, c: Option<ContentCountry>)
    : (r: State)
    ensures r.downloader == d
    ensures r.localization == l && r.contentCountry == c
    ensures PreferredLocalization(r) == l.GetOr(DefaultLocalization)
    ensures PreferredContentCountry(r) == c.GetOr(DefaultContentCountry)
  {
    State(d, l, c)
  }

  /** `setupLocalization(Localization, ContentCountry)`: an explicit country
      wins; a null one is derived from the localization, which must then not
      be null. The downloader is never touched. */
  function SetupLocalization(s: State, l: Option<Localization>, c: Option<ContentCountry>)
    : (r: Completion)
    ensures r.state.downloader == s.downloader
    ensures r.state.localization == l
    ensures r.NullPointer? <==> l.None? && c.None?
    ensures c.Some? ==> PreferredContentCountry(r.state) == c.value
    ensures r.Normal? && c.None? ==> PreferredContentCountry(r.state) == CountryOf(l.value)
    ensures r.NullPointer? ==> r.state.contentCountry == s.contentCountry
  {
    if c.Some? then Normal(s.(localization := l, contentCountry := c))
    else match l
      case None => NullPointer(s.(localization := None))
      case Some(loc) => Normal(s.(localization := l, contentCountry := Some(CountryOf(loc))))
  }

  /** `setupLocalization(Localization)`: the country is always derived. */
  function SetupLocalizationDerived(s: State, l: Option<Localization>): (r: Completion)
    ensures r.state.downloader == s.downloader
    ensures r.state.localization == l
    ensures r.NullPointer? <==> l.None?
    ensures r.NullPointer? ==> r.state.contentCountry == s.contentCountry
    ensures r.Normal? ==> PreferredLocalization(r.state) == l.value
    ensures r.Normal? ==> PreferredContentCountry(r.state) == CountryOf(l.value)
  {
    SetupLocalization(s, l, None)
  }

  /** `setPreferredLocalization`: replaces the localization field only. */
  function SetPreferredLocalization(s: State, l: Option<Localization>): (r: State)
    ensures r.downloader == s.downloader && r.contentCountry == s.contentCountry
    ensures PreferredLocalization(r) == l.GetOr(DefaultLocalization)
  {
    s.(localization := l)
  }

  /** `setPreferredContentCountry`: replaces the country field only. */
  function SetPreferredContentCountry(s: State, c: Option<ContentCountry>): (r: State)
    ensures r.downloader == s.downloader && r.localization == s.localization
    ensures PreferredContentCountry(r) == c.GetOr(DefaultContentCountry)
  {
    s.(contentCountry := c)
  }

  /** Before any `init` both fields are null, yet neither getter ever
      answers null: each reads the default. */
  lemma UninitializedReadsDefaults()
    ensures PreferredLocalization(Uninitialized) == DefaultLocalization
    ensures PreferredContentCountry(Uninitialized) == DefaultContentCountry
  {
  }

  /** The two places that derive a country from a localization agree:
      `init(d, l)` behaves as installing `d` and then calling
      `setupLocalization(l)`, down to the state left by a null `l`. */
  lemma InitWithLocalizationIsSetup(s: State, d: Option<Downloader>, l: Option<Localization>)
    ensures InitWithLocalization(s, d, l) == SetupLocalizationDerived(s.(downloader := d), l)
  {
  }

  /** `init(d)` is `init(d, DEFAULT, DEFAULT)`. */
  lemma InitIsInitWithDefaults(d: Option<Downloader>)
    ensures Init(d) == InitWithAll(d, Some(DefaultLocalization), Some(DefaultContentCountry))
  {
  }

  /** With a non-null localization, `init(d, l)` is `init(d, l, c)` for the
      country `l` implies. */
  lemma InitWithLocalizationIsInitWithAll(s: State, d: Option<Downloader>, l: Localization)
    ensures InitWithLocalization(s, d, Some(l))
         == Normal(InitWithAll(d, Some(l), Some(CountryOf(l))))
  {
  }

  /** With an explicit country, `setupLocalization(l, c)` is the two setters
      in sequence, in either order. */
  lemma SetupWithCountryIsSetters(s: State, l: Option<Localization>, c: ContentCountry)
    ensures SetupLocalization(s, l, Some(c))
         == Normal(SetPreferredContentCountry(SetPreferredLocalization(s, l), Some(c)))
    ensures SetupLocalization(s, l, Some(c))
         == Normal(SetPreferredLocalization(SetPreferredContentCountry(s, Some(c)), l))
  {
  }

  /** Each getter reads back what its setter stored, and a setter leaves the
      other getter's answer unchanged. */
  lemma GetAfterSet(s: State, l: Localization, c: ContentCountry)
    ensures PreferredLocalization(SetPreferredLocalization(s, Some(l))) == l
    ensures PreferredContentCountry(SetPreferredContentCountry(s, Some(c))) == c
    ensures PreferredContentCountry(SetPreferredLocalization(s, Some(l)))
         == PreferredContentCountry(s)
    ensures PreferredLocalization(SetPreferredContentCountry(s, Some(c)))
         == PreferredLocalization(s)
  {
  }

  /** Setting a field twice keeps only the last value, and the two setters
      commute. */
  lemma SettersLastWriteWinsAndCommute(
    s: State, l1: Option<Localization>, l2: Option<Localization>,
    c1: Option<ContentCountry>, c2: Option<ContentCountry>)
    ensures SetPreferredLocalization(SetPreferredLocalization(s, l1), l2)
         == SetPreferredLocalization(s, l2)
    ensures SetPreferredContentCountry(SetPreferredContentCountry(s, c1), c2)
         == SetPreferredContentCountry(s, c2)
    ensures SetPreferredLocalization(SetPreferredContentCountry(s, c1), l1)
         == SetPreferredContentCountry(SetPreferredLocalization(s, l1), c1)
  {
  }

  /** One call on the facade's localization surface. */
  datatype Call =
    | CallInit(d: Option<Downloader>)
    | CallInitWithLocalization(d: Option<Downloader>, l: Option<Localization>)
    | CallInitWithAll(d: Option<Downloader>, l: Option<Localization>, c: Option<ContentCountry>)
    | CallSetupLocalization(l: Option<Localization>, c: Option<ContentCountry>)
    | CallSetPreferredLocalization(l: Option<Localization>)
    | CallSetPreferredContentCountry(c: Option<ContentCountry>)
  {
    predicate IsInit() {
      CallInit? || CallInitWithLocalization? || CallInitWithAll?
    }
  }

  function Step(s: State, call: Call): Completion {
    match call
    case CallInit(d) => Normal(Init(d))
    case CallInitWithLocalization(d, l) => InitWithLocalization(s, d, l)
    case CallInitWithAll(d, l, c) => Normal(InitWithAll(d, l, c))
    case CallSetupLocalization(l, c) => SetupLocalization(s, l, c)
    case CallSetPreferredLocalization(l) => Normal(SetPreferredLocalization(s, l))
    case CallSetPreferredContentCountry(c) => Normal(SetPreferredContentCountry(s, c))
  }

  /** A caller's sequence of calls that lets a thrown exception escape: the
      first `NullPointer` ends the sequence. A Java caller that catches it
      and carries on from the half-assigned state is not this `Run`. */
  function Run(s: State, calls: seq<Call>): Completion
    decreases |calls|
  {
    if |calls| == 0 then Normal(s)
    else match Step(s, calls[0])
      case Normal(s') => Run(s', calls[1..])
      case NullPointer(s') => NullPointer(s')
  }

  /** Only the `init` overloads touch the downloader: any run of
      localization calls, completing or not, leaves it as it was. */
  lemma {:induction false} RunWithoutInitKeepsDownloader(s: State, calls: seq<Call>)
    requires forall i :: 0 <= i < |calls| ==> !calls[i].IsInit()
    ensures Run(s, calls).state.downloader == s.downloader
    decreases |calls|
  {
    if |calls| > 0 {
      var c := Step(s, calls[0]);
      if c.Normal? {
        assert forall i :: 0 <= i < |calls[1..]| ==> calls[1..][i] == calls[i + 1];
        RunWithoutInitKeepsDownloader(c.state, calls[1..]);
      }
    }
  }

  /** A run that ends in a successful `init(d)` forgets every earlier
      localization call: the getters read the defaults. */
  lemma {:induction false} RunEndingInInitReadsDefaults(s: State, calls: seq<Call>, d: Option<Downloader>)
    requires Run(s, calls).Normal?
    ensures Run(s, calls + [CallInit(d)]).Normal?
    ensures PreferredLocalization(Run(s, calls + [CallInit(d)]).state) == DefaultLocalization
    ensures PreferredContentCountry(Run(s, calls + [CallInit(d)]).state) == DefaultContentCountry
  {
    RunAppend(s, calls, [CallInit(d)]);
  }

  /** Running two sequences back to back is running the first and, if it
      completed normally, the second from where it left off. */
  lemma {:induction false} RunAppend(s: State, xs: seq<Call>, ys: seq<Call>)
    ensures Run(s, xs + ys)
         == (if Run(s, xs).Normal? then Run(Run(s, xs).state, ys) else Run(s, xs))
    decreases |xs|
  {
    if |xs| == 0 {
      assert xs + ys == ys;
    } else {
      assert (xs + ys)[0] == xs[0];
      assert (xs + ys)[1..] == xs[1..] + ys;
      var c := Step(s, xs[0]);
      if c.Normal? {
        RunAppend(c.state, xs[1..], ys);
      }
    }
  }
}
