/** The extensions of segments: handed out by Setup, carried along when a running list is replaced, given back to Cleanup. */
module SegmentExtensions {

  import opened SegmentTypes

  /** The two callbacks of a command, if it has them. The Cleanup of a number is made for what the Setup of that number hands out. */
  datatype Command = Command(setup: Option<nat>, cleanup: Option<nat>)

  /** What a Setup hands out: how many extensions there were before, and which Setup it was. */
  datatype Extension = Extension(number: nat, maker: nat)

  datatype Segment = Segment(tag: nat, command: Command, extension: Option<Extension>)

  /** The application behind the callbacks: which Setups handed out its extensions, and which Cleanups got what. */
  class Application {
    var issued: seq<nat>
    var cleaned: seq<Option<Extension>>
    var cleaners: seq<nat>

    constructor ()
      ensures issued == [] && cleaned == [] && cleaners == []
    {
      issued, cleaned, cleaners := [], [], [];
    }

    method Setup(maker: nat) returns (extension: Option<Extension>)
      modifies this
      ensures extension == Some(Extension(|old(issued)|, maker)) && issued == old(issued) + [maker]
      ensures cleaned == old(cleaned) && cleaners == old(cleaners)
    {
      extension := Some(Extension(|issued|, maker));
      issued := issued + [maker];
    }

    method Cleanup(cleaner: nat, extension: Option<Extension>)
      modifies this
      ensures cleaned == old(cleaned) + [extension] && cleaners == old(cleaners) + [cleaner] && issued == old(issued)
    {
      cleaned, cleaners := cleaned + [extension], cleaners + [cleaner];
    }
  }

  function TagsIn(segments: seq<Segment>): seq<nat> {
    seq(|segments|, i requires 0 <= i < |segments| => segments[i].tag)
  }

  class SegmentList {
    /** The tags of the segments, which never change. */
    const tags: seq<nat>
    var segments: seq<Segment>
    var curIndex: int
    var inUse: bool

    constructor (segments: seq<Segment>)
      ensures this.segments == segments && tags == TagsIn(segments) && curIndex == -1 && !inUse
    {
      tags := TagsIn(segments);
      this.segments, curIndex, inUse := segments, -1, false;
    }
  }

  // ----- Who holds which extension -----

  /** All extensions handed out so far, each once. */
  ghost function Issued(issued: seq<nat>): multiset<Option<Extension>> {
    if issued == [] then multiset{}
    else
      var n := |issued| - 1;
      Issued(issued[..n]) + multiset{Some(Extension(n, issued[n]))}
  }

  /** The extension is one of those handed out. */
  ghost predicate IsIssued(issued: seq<nat>, e: Extension) {
    e.number < |issued| && issued[e.number] == e.maker
  }

  ghost function Own(s: Segment): multiset<Option<Extension>> {
    if s.extension == None then multiset{} else multiset{s.extension}
  }

  ghost function Held(segments: seq<Segment>): multiset<Option<Extension>> {
    if segments == [] then multiset{} else Own(segments[0]) + Held(segments[1..])
  }

  /** Every extension handed out is either held or was given back, once; and nothing else was given back. */
  ghost predicate Balanced(issued: seq<nat>, cleaned: seq<Option<Extension>>, held: multiset<Option<Extension>>) {
    multiset(cleaned) + held == Issued(issued)
  }

  /** Every extension that was given back went to the Cleanup that belongs to its Setup. */
  ghost predicate OwnReturns(cleaned: seq<Option<Extension>>, cleaners: seq<nat>) {
    |cleaners| == |cleaned| && forall k :: 0 <= k < |cleaned| && cleaned[k].Some? ==> cleaned[k].value.maker == cleaners[k]
  }

  lemma OwnReturnsAppend(a: seq<Option<Extension>>, a': seq<nat>, b: seq<Option<Extension>>, b': seq<nat>)
    requires OwnReturns(a, a') && |b| == |b'|
    ensures OwnReturns(a + b, a' + b') <==> OwnReturns(b, b')
  {
    if OwnReturns(a + b, a' + b') {
      forall k | 0 <= k < |b| && b[k].Some? ensures b[k].value.maker == b'[k] {
        assert (a + b)[|a| + k] == b[k] && (a' + b')[|a| + k] == b'[k];
      }
    }
  }

  lemma IssuedMore(issued: seq<nat>, maker: nat)
    ensures Issued(issued + [maker]) == Issued(issued) + multiset{Some(Extension(|issued|, maker))}
  {
    assert (issued + [maker])[..|issued|] == issued;
  }

  lemma {:induction false} IssuedOnce(issued: seq<nat>, e: Extension)
    ensures Issued(issued)[Some(e)] == (if IsIssued(issued, e) then 1 else 0) && None !in Issued(issued)
  {
    if issued != [] { IssuedOnce(issued[..|issued| - 1], e); }
  }

  /** With nothing held, the application got back each of its extensions exactly once, and never got a null. */
  lemma BalancedMeansCleanedOnce(issued: seq<nat>, cleaned: seq<Option<Extension>>, e: Extension)
    requires Balanced(issued, cleaned, multiset{})
    ensures multiset(cleaned)[Some(e)] == (if IsIssued(issued, e) then 1 else 0)
    ensures None !in cleaned
  {
    IssuedOnce(issued, e);
    assert multiset(cleaned) + multiset{} == multiset(cleaned);
    assert None in cleaned ==> None in multiset(cleaned);
  }

  lemma HeldTwice(segments: seq<Segment>, i: nat, j: nat)
    requires i < j < |segments| && segments[i].extension.Some? && segments[i].extension == segments[j].extension
    ensures Held(segments)[segments[i].extension] >= 2
  {
    HeldSplit(segments, j);
    HeldSplit(segments[..j], i);
  }

  lemma HeldIsIssued(issued: seq<nat>, cleaned: seq<Option<Extension>>, held: multiset<Option<Extension>>, e: Extension)
    requires Balanced(issued, cleaned, held) && held[Some(e)] >= 1
    ensures held[Some(e)] == 1 && Some(e) !in cleaned && IsIssued(issued, e)
  {
    IssuedOnce(issued, e);
    assert (multiset(cleaned) + held)[Some(e)] == multiset(cleaned)[Some(e)] + held[Some(e)];
    assert Some(e) in cleaned ==> Some(e) in multiset(cleaned);
  }

  /** While a list runs, an extension it holds was not given back yet, and no other segment holds it. */
  lemma HeldMeansLive(issued: seq<nat>, cleaned: seq<Option<Extension>>, segments: seq<Segment>, i: nat)
    requires Balanced(issued, cleaned, Held(segments)) && i < |segments| && segments[i].extension.Some?
    ensures segments[i].extension !in cleaned && IsIssued(issued, segments[i].extension.value)
    ensures forall j :: 0 <= j < |segments| && j != i ==> segments[j].extension != segments[i].extension
  {
    HeldSplit(segments, i);
    HeldIsIssued(issued, cleaned, Held(segments), segments[i].extension.value);
    forall j | 0 <= j < |segments| && j != i ensures segments[j].extension != segments[i].extension {
      if segments[j].extension == segments[i].extension {
        HeldTwice(segments, if i < j then i else j, if i < j then j else i);
      }
    }
  }

  /** What a list holds: what its first segment owns, and what the rest holds. */
  lemma HeldFirst(s: Segment, rest: seq<Segment>)
    ensures Held([s] + rest) == Own(s) + Held(rest)
  {
    assert ([s] + rest)[1..] == rest;
  }

  lemma {:induction false} HeldTogether(a: seq<Segment>, b: seq<Segment>)
    ensures Held(a + b) == Held(a) + Held(b)
  {
    if a == [] {
      assert a + b == b;
    } else {
      var s, rest := a[0], a[1..];
      HeldTogether(rest, b);
      HeldFirst(s, rest);
      HeldFirst(s, rest + b);
      assert a == [s] + rest;
      Reassociate([s], rest, b);
      Regroup(Own(s), Held(rest), Held(b));
    }
  }

  lemma Reassociate<T>(a: seq<T>, b: seq<T>, c: seq<T>)
    ensures (a + b) + c == a + (b + c)
  {
  }

  lemma Regroup<T>(a: multiset<T>, b: multiset<T>, c: multiset<T>)
    ensures a + (b + c) == (a + b) + c
  {
  }

  lemma SplitAt<T>(s: seq<T>, i: nat)
    requires i < |s|
    ensures s == s[..i] + ([s[i]] + s[i + 1..])
  {
  }

  lemma HeldSplit(segments: seq<Segment>, i: nat)
    requires i < |segments|
    ensures Held(segments) == Held(segments[..i]) + Own(segments[i]) + Held(segments[i + 1..])
  {
    var before, s, after := segments[..i], segments[i], segments[i + 1..];
    SplitAt(segments, i);
    HeldTogether(before, [s] + after);
    HeldFirst(s, after);
    Regroup(Held(before), Own(s), Held(after));
  }

  lemma HeldUpdate(segments: seq<Segment>, i: nat, s: Segment)
    requires i < |segments| && segments[i].extension == None
    ensures Held(segments[i := s]) == Held(segments) + Own(s)
  {
    HeldSplit(segments, i);
    HeldSplit(segments[i := s], i);
    assert segments[i := s][..i] == segments[..i];
    assert segments[i := s][i + 1..] == segments[i + 1..];
  }

  // ----- Lists -----

  ghost predicate DistinctTags(segments: seq<Segment>) {
    forall i, j :: 0 <= i < j < |segments| ==> segments[i].tag != segments[j].tag
  }

  /** Setup and Cleanup come in pairs. */
  ghost predicate Paired(segments: seq<Segment>) {
    forall i :: 0 <= i < |segments| ==> segments[i].command.setup == segments[i].command.cleanup
  }

  /** Nobody has set the list up. */
  ghost predicate Blank(segments: seq<Segment>) {
    forall i :: 0 <= i < |segments| ==> segments[i].extension == None
  }

  /** A segment whose command has a Cleanup has an extension made for it, and no other has one. */
  ghost predicate OwnsRightly(s: Segment) {
    match s.command.cleanup
    case None => s.extension == None
    case Some(cleaner) => s.extension.Some? && s.extension.value.maker == cleaner
  }

  ghost predicate Owning(segments: seq<Segment>) {
    forall i :: 0 <= i < |segments| ==> OwnsRightly(segments[i])
  }

  /** Tags shared by the two lists name commands with the same callbacks. */
  ghost predicate SameCommands(cur: seq<Segment>, new_: seq<Segment>) {
    forall i, j :: 0 <= i < |cur| && 0 <= j < |new_| && cur[i].tag == new_[j].tag ==> cur[i].command == new_[j].command
  }

  /** The two lists differ at most in their extensions. */
  ghost predicate SameBits(a: seq<Segment>, b: seq<Segment>) {
    |a| == |b| && forall i :: 0 <= i < |a| ==> a[i].tag == b[i].tag && a[i].command == b[i].command
  }

  lemma SameTags(a: seq<Segment>, b: seq<Segment>)
    requires SameBits(a, b)
    ensures TagsIn(a) == TagsIn(b)
  {
  }

  /** One of the first n segments has the tag. */
  ghost predicate HasTag(segments: seq<Segment>, n: nat, tag: nat)
    requires n <= |segments|
  {
    exists i :: 0 <= i < n && segments[i].tag == tag
  }

  method FindTag(segments: seq<Segment>, tag: nat) returns (index: int)
    ensures -1 <= index < |segments| && (index >= 0 <==> HasTag(segments, |segments|, tag))
    ensures index >= 0 ==> segments[index].tag == tag
  {
    for i := 0 to |segments|
      invariant forall k :: 0 <= k < i ==> segments[k].tag != tag
    {
      if segments[i].tag == tag { return i; }
    }
    return -1;
  }

  // ----- Setting up and cleaning up a whole list -----

  lemma HeldAppend(segments: seq<Segment>, i: nat)
    requires i < |segments|
    ensures Held(segments[..i + 1]) == Held(segments[..i]) + Own(segments[i])
  {
    HeldSplit(segments[..i + 1], i);
    assert segments[..i + 1][..i] == segments[..i];
    assert segments[..i + 1][i + 1..] == [];
  }

  /** A segment without a Setup never has an extension, whatever happened to its list before. */
  ghost predicate OnlySetUp(segments: seq<Segment>) {
    forall i :: 0 <= i < |segments| && segments[i].command.setup == None ==> segments[i].extension == None
  }

  /** Of the first i segments, those with a Cleanup own an extension. */
  ghost predicate OwningUpTo(was: seq<Segment>, now: seq<Segment>, i: nat) {
    && SameBits(was, now) && OnlySetUp(now) && Paired(now) && i <= |now|
    && (forall k :: 0 <= k < i ==> OwnsRightly(now[k]))
  }

  /** The first i segments of the list have been set up. */
  ghost predicate PartlySetUp(was: seq<Segment>, now: seq<Segment>, i: nat, issued: seq<nat>, cleaned: seq<Option<Extension>>) {
    OwningUpTo(was, now, i) && Balanced(issued, cleaned, Held(now[..i]))
  }

  lemma OwningOneMore(was: seq<Segment>, now: seq<Segment>, i: nat, e: Extension)
    requires OwningUpTo(was, now, i) && i < |now| && now[i].command.setup == Some(e.maker)
    ensures OwningUpTo(was, now[i := now[i].(extension := Some(e))], i + 1)
  {
  }

  lemma SetUpBalance(now: seq<Segment>, i: nat, issued: seq<nat>, cleaned: seq<Option<Extension>>, maker: nat)
    requires i < |now| && Balanced(issued, cleaned, Held(now[..i]))
    ensures Balanced(issued + [maker], cleaned, Held(now[i := now[i].(extension := Some(Extension(|issued|, maker)))][..i + 1]))
  {
    var after := now[i := now[i].(extension := Some(Extension(|issued|, maker)))];
    IssuedMore(issued, maker);
    HeldAppend(after, i);
    assert after[..i] == now[..i];
  }

  lemma SetUpOne(
      was: seq<Segment>, now: seq<Segment>, i: nat, issued: seq<nat>, cleaned: seq<Option<Extension>>, maker: nat)
    requires PartlySetUp(was, now, i, issued, cleaned) && i < |now| && now[i].command.setup == Some(maker)
    ensures PartlySetUp(was, now[i := now[i].(extension := Some(Extension(|issued|, maker)))], i + 1, issued + [maker], cleaned)
  {
    OwningOneMore(was, now, i, Extension(|issued|, maker));
    SetUpBalance(now, i, issued, cleaned, maker);
  }

  lemma SetUpNone(was: seq<Segment>, now: seq<Segment>, i: nat, issued: seq<nat>, cleaned: seq<Option<Extension>>)
    requires PartlySetUp(was, now, i, issued, cleaned) && i < |now| && now[i].command.setup == None
    ensures PartlySetUp(was, now, i + 1, issued, cleaned)
  {
    HeldAppend(now, i);
  }

  lemma AllSetUp(was: seq<Segment>, now: seq<Segment>, issued: seq<nat>, cleaned: seq<Option<Extension>>)
    requires PartlySetUp(was, now, |now|, issued, cleaned)
    ensures Owning(now) && OnlySetUp(now) && Balanced(issued, cleaned, Held(now))
  {
    assert now[..|now|] == now;
  }

  /** One segment: set it up, if its command has a Setup. */
  method SetupNext(list: SegmentList, app: Application, i: nat, ghost was: seq<Segment>)
    requires i < |list.segments| && PartlySetUp(was, list.segments, i, app.issued, app.cleaned)
    modifies list`segments, app
    ensures app.cleaned == old(app.cleaned) && app.cleaners == old(app.cleaners) && |list.segments| == |old(list.segments)|
    ensures PartlySetUp(was, list.segments, i + 1, app.issued, app.cleaned)
  {
    var setup := list.segments[i].command.setup;
    if setup.Some? {
      SetUpOne(was, list.segments, i, app.issued, app.cleaned, setup.value);
      var extension := app.Setup(setup.value);
      list.segments := list.segments[i := list.segments[i].(extension := extension)];
    } else {
      SetUpNone(was, list.segments, i, app.issued, app.cleaned);
    }
  }

  method SetupAllSegments(list: SegmentList, app: Application)
    requires Paired(list.segments) && OnlySetUp(list.segments) && Balanced(app.issued, app.cleaned, multiset{})
    modifies list`segments, app
    ensures SameBits(old(list.segments), list.segments) && Owning(list.segments) && OnlySetUp(list.segments)
    ensures app.cleaned == old(app.cleaned) && app.cleaners == old(app.cleaners)
    ensures Balanced(app.issued, app.cleaned, Held(list.segments))
  {
    for i := 0 to |list.segments|
      invariant app.cleaned == old(app.cleaned) && app.cleaners == old(app.cleaners)
      invariant PartlySetUp(old(list.segments), list.segments, i, app.issued, app.cleaned)
    {
      SetupNext(list, app, i, old(list.segments));
    }
    AllSetUp(old(list.segments), list.segments, app.issued, app.cleaned);
  }

  /** What cleaning up a list gives back: whatever the segments with a Cleanup have, a null if they have nothing. */
  ghost function GivenBack(segments: seq<Segment>): seq<Option<Extension>> {
    if segments == [] then []
    else (if segments[0].command.cleanup.Some? then [segments[0].extension] else []) + GivenBack(segments[1..])
  }

  /** And to which Cleanups. */
  ghost function GivenTo(segments: seq<Segment>): (cleaners: seq<nat>)
    ensures |cleaners| == |GivenBack(segments)|
  {
    if segments == [] then []
    else (if segments[0].command.cleanup.Some? then [segments[0].command.cleanup.value] else []) + GivenTo(segments[1..])
  }

  /** What has been given back so far, and what the segments from i on have yet to give back, make up what all of them give back. */
  ghost predicate CleanedUpTo(
    segments: seq<Segment>, i: nat, wasCleaned: seq<Option<Extension>>, wasCleaners: seq<nat>,
    cleaned: seq<Option<Extension>>, cleaners: seq<nat>)
  {
    && i <= |segments| && cleaned + GivenBack(segments[i..]) == wasCleaned + GivenBack(segments)
    && cleaners + GivenTo(segments[i..]) == wasCleaners + GivenTo(segments)
  }

  lemma CleanOne(
      segments: seq<Segment>, i: nat, wasCleaned: seq<Option<Extension>>, wasCleaners: seq<nat>,
      cleaned: seq<Option<Extension>>, cleaners: seq<nat>)
    requires CleanedUpTo(segments, i, wasCleaned, wasCleaners, cleaned, cleaners) && i < |segments|
    ensures
      match segments[i].command.cleanup
      case None => CleanedUpTo(segments, i + 1, wasCleaned, wasCleaners, cleaned, cleaners)
      case Some(cleaner) =>
        CleanedUpTo(segments, i + 1, wasCleaned, wasCleaners, cleaned + [segments[i].extension], cleaners + [cleaner])
  {
    var s, rest := segments[i], segments[i + 1..];
    assert segments[i..][1..] == rest;
    if s.command.cleanup.Some? {
      Reassociate(cleaned, [s.extension], GivenBack(rest));
      Reassociate(cleaners, [s.command.cleanup.value], GivenTo(rest));
    } else {
      assert [] + GivenBack(rest) == GivenBack(rest) && [] + GivenTo(rest) == GivenTo(rest);
    }
  }

  method CleanupAllSegments(list: SegmentList, app: Application)
    modifies app
    ensures app.issued == old(app.issued)
    ensures app.cleaned == old(app.cleaned) + GivenBack(list.segments)
    ensures app.cleaners == old(app.cleaners) + GivenTo(list.segments)
  {
    assert list.segments[0..] == list.segments;
    for i := 0 to |list.segments|
      invariant app.issued == old(app.issued)
      invariant CleanedUpTo(list.segments, i, old(app.cleaned), old(app.cleaners), app.cleaned, app.cleaners)
    {
      CleanOne(list.segments, i, old(app.cleaned), old(app.cleaners), app.cleaned, app.cleaners);
      var cleanup := list.segments[i].command.cleanup;
      if cleanup.Some? {
        app.Cleanup(cleanup.value, list.segments[i].extension);
      }
    }
  }

  /** The extensions of segments whose command has no Cleanup. */
  ghost function Stranded(segments: seq<Segment>): multiset<Option<Extension>> {
    if segments == [] then multiset{}
    else (if segments[0].command.cleanup.Some? then multiset{} else Own(segments[0])) + Stranded(segments[1..])
  }

  /** One null for each segment that has a Cleanup and no extension. */
  ghost function Nulls(segments: seq<Segment>): multiset<Option<Extension>> {
    if segments == [] then multiset{}
    else (if segments[0].command.cleanup.Some? && segments[0].extension == None then multiset{None} else multiset{}) + Nulls(segments[1..])
  }

  /** Each segment with a Cleanup, and no other, has an extension, whosever it is. */
  ghost predicate Furnished(segments: seq<Segment>) {
    forall i :: 0 <= i < |segments| ==> (segments[i].extension.Some? <==> segments[i].command.cleanup.Some?)
  }

  lemma {:induction false} StrandedAndNulls(segments: seq<Segment>)
    ensures None !in Stranded(segments) && forall x :: x in Nulls(segments) ==> x == None
    ensures Furnished(segments) <==> Stranded(segments) == multiset{} && Nulls(segments) == multiset{}
    ensures multiset(GivenBack(segments)) + Stranded(segments) == Held(segments) + Nulls(segments)
  {
    if segments != [] {
      var s, rest := segments[0], segments[1..];
      StrandedAndNulls(rest);
      FurnishedFirst(segments);
      StrandedStep(s, GivenBack(rest), Stranded(rest), Held(rest), Nulls(rest));
    }
  }

  lemma FurnishedFirst(segments: seq<Segment>)
    requires segments != []
    ensures Furnished(segments) <==> (segments[0].extension.Some? <==> segments[0].command.cleanup.Some?) && Furnished(segments[1..])
  {
    if Furnished(segments[1..]) && (segments[0].extension.Some? <==> segments[0].command.cleanup.Some?) {
      forall i | 0 <= i < |segments| ensures segments[i].extension.Some? <==> segments[i].command.cleanup.Some? {
        assert i > 0 ==> segments[i] == segments[1..][i - 1];
      }
    }
  }

  /** No segment has an extension that its Cleanup is not made for. */
  ghost predicate Matched(segments: seq<Segment>) {
    forall i :: 0 <= i < |segments| && segments[i].extension.Some? && segments[i].command.cleanup.Some? ==>
      segments[i].extension.value.maker == segments[i].command.cleanup.value
  }

  lemma {:induction false} GivenToOwn(segments: seq<Segment>)
    ensures OwnReturns(GivenBack(segments), GivenTo(segments)) <==> Matched(segments)
  {
    if segments != [] {
      var s, rest := segments[0], segments[1..];
      GivenToOwn(rest);
      assert Matched(segments) <==> Matched([s]) && Matched(rest) by {
        assert segments == [s] + rest;
      }
      if s.command.cleanup.None? {
        assert [] + GivenBack(rest) == GivenBack(rest) && [] + GivenTo(rest) == GivenTo(rest);
      } else if Matched([s]) {
        OwnReturnsAppend([s.extension], [s.command.cleanup.value], GivenBack(rest), GivenTo(rest));
      } else {
        assert [s][0] == s && GivenBack(segments)[0] == s.extension && GivenTo(segments)[0] == s.command.cleanup.value;
      }
    }
  }

  lemma StrandedStep(
      s: Segment, given: seq<Option<Extension>>, stranded: multiset<Option<Extension>>, held: multiset<Option<Extension>>, nulls: multiset<Option<Extension>>)
    requires multiset(given) + stranded == held + nulls
    ensures
      multiset((if s.command.cleanup.Some? then [s.extension] else []) + given)
        + ((if s.command.cleanup.Some? then multiset{} else Own(s)) + stranded)
      == (Own(s) + held) + ((if s.command.cleanup.Some? && s.extension == None then multiset{None} else multiset{}) + nulls)
  {
    var first := if s.command.cleanup.Some? then [s.extension] else [];
    var lost := if s.command.cleanup.Some? then multiset{} else Own(s);
    var nothing := if s.command.cleanup.Some? && s.extension == None then multiset{None} else multiset{};
    assert multiset(first + given) == multiset(first) + multiset(given);
    assert multiset(first) + lost == Own(s) + nothing;
    AddUp(multiset(first), lost, Own(s), nothing, multiset(given), stranded, held, nulls);
  }

  lemma AddUp<T>(
      a: multiset<T>, b: multiset<T>, c: multiset<T>, d: multiset<T>,
      a': multiset<T>, b': multiset<T>, c': multiset<T>, d': multiset<T>)
    requires a + b == c + d && a' + b' == c' + d'
    ensures (a + a') + (b + b') == (c + c') + (d + d')
  {
    assert (a + a') + (b + b') == (a + b) + (a' + b');
    assert (c + c') + (d + d') == (c + d) + (c' + d');
  }

  /**
   * Cleaning up a list settles the books, each extension going back to where it came from, exactly if each of the list's
   * segments with a Cleanup has an extension made for that, and no other segment has one.
   */
  lemma CleanupSettlesIffOwning(issued: seq<nat>, cleaned: seq<Option<Extension>>, cleaners: seq<nat>, segments: seq<Segment>)
    requires Balanced(issued, cleaned, Held(segments)) && OwnReturns(cleaned, cleaners)
    ensures
      Balanced(issued, cleaned + GivenBack(segments), multiset{}) && OwnReturns(cleaned + GivenBack(segments), cleaners + GivenTo(segments))
      <==> Owning(segments)
  {
    CleanupBalancesIffFurnished(issued, cleaned, segments);
    GivenToOwn(segments);
    OwnReturnsAppend(cleaned, cleaners, GivenBack(segments), GivenTo(segments));
    assert Owning(segments) ==> Furnished(segments) && Matched(segments);
    if Furnished(segments) && Matched(segments) {
      forall i | 0 <= i < |segments| ensures OwnsRightly(segments[i]) {
        assert segments[i].extension.Some? <==> segments[i].command.cleanup.Some?;
      }
    }
  }

  lemma CleanupBalancesIffFurnished(issued: seq<nat>, cleaned: seq<Option<Extension>>, segments: seq<Segment>)
    requires Balanced(issued, cleaned, Held(segments))
    ensures Balanced(issued, cleaned + GivenBack(segments), multiset{}) <==> Furnished(segments)
  {
    StrandedAndNulls(segments);
    assert multiset(cleaned + GivenBack(segments)) + multiset{} == multiset(cleaned) + multiset(GivenBack(segments));
    Settles(multiset(cleaned), multiset(GivenBack(segments)), Stranded(segments), Held(segments), Nulls(segments));
  }

  lemma Settles(
      cleaned: multiset<Option<Extension>>, given: multiset<Option<Extension>>, stranded: multiset<Option<Extension>>,
      held: multiset<Option<Extension>>, nulls: multiset<Option<Extension>>)
    requires given + stranded == held + nulls && None !in stranded && forall x :: x in nulls ==> x == None
    ensures cleaned + given == cleaned + held <==> stranded == multiset{} && nulls == multiset{}
  {
    if cleaned + given == cleaned + held {
      Cancel(cleaned, given, held);
      Cancel(held, stranded, nulls);
      Apart(stranded, nulls);
    }
    if stranded == multiset{} && nulls == multiset{} {
      assert given == given + stranded == held + nulls == held;
    }
  }

  lemma Cancel<T>(a: multiset<T>, b: multiset<T>, c: multiset<T>)
    requires a + b == a + c
    ensures b == c
  {
    forall x ensures b[x] == c[x] {
      assert (a + b)[x] == (a + c)[x];
    }
  }

  lemma Apart(a: multiset<Option<Extension>>, b: multiset<Option<Extension>>)
    requires a == b && None !in a && forall x :: x in b ==> x == None
    ensures a == multiset{}
  {
    assert forall x :: x !in a;
  }

  // ----- Replacing the running list -----

  /** The new list's segments have got what the first i of the old ones with the same tag owned, and nothing else. */
  ghost predicate Inherited(cur: seq<Segment>, i: nat, new_: seq<Segment>)
    requires i <= |cur|
  {
    && (forall k, j :: 0 <= k < i && 0 <= j < |new_| && cur[k].tag == new_[j].tag ==> new_[j].extension == cur[k].extension)
    && (forall j :: 0 <= j < |new_| && !HasTag(cur, i, new_[j].tag) ==> new_[j].extension == None)
  }

  lemma InheritNothing(cur: seq<Segment>, i: nat, new_: seq<Segment>)
    requires i < |cur| && Inherited(cur, i, new_) && DistinctTags(cur)
    requires cur[i].extension == None || !HasTag(new_, |new_|, cur[i].tag)
    ensures Inherited(cur, i + 1, new_)
  {
    forall j | 0 <= j < |new_| && cur[i].tag == new_[j].tag ensures new_[j].extension == cur[i].extension {
      assert !HasTag(cur, i, new_[j].tag);
    }
  }

  lemma InheritOne(cur: seq<Segment>, i: nat, new_: seq<Segment>, j: nat)
    requires i < |cur| && Inherited(cur, i, new_) && DistinctTags(cur) && DistinctTags(new_)
    requires j < |new_| && new_[j].tag == cur[i].tag
    ensures new_[j].extension == None
    ensures Inherited(cur, i + 1, new_[j := new_[j].(extension := cur[i].extension)])
  {
    assert !HasTag(cur, i, new_[j].tag);
  }

  /** Each of the first i segments of the old list has let go of its extension if the new list has a segment with its tag. */
  ghost predicate LetGo(was: seq<Segment>, cur: seq<Segment>, new_: seq<Segment>, i: nat) {
    forall k :: 0 <= k < i <= |was| == |cur| ==>
      cur[k].extension == if HasTag(new_, |new_|, was[k].tag) then None else was[k].extension
  }

  lemma LetGoStill(was: seq<Segment>, cur: seq<Segment>, new_: seq<Segment>, now: seq<Segment>, i: nat)
    requires LetGo(was, cur, new_, i) && SameBits(new_, now)
    ensures LetGo(was, cur, now, i)
  {
    forall tag ensures HasTag(new_, |new_|, tag) <==> HasTag(now, |now|, tag) {
      assert forall j :: 0 <= j < |new_| ==> new_[j].tag == now[j].tag;
    }
  }

  /** The first i segments of the old list have been dealt with; the others are as they were. */
  ghost predicate MovedUpTo(was: seq<Segment>, cur: seq<Segment>, wasNew: seq<Segment>, new_: seq<Segment>, i: nat) {
    && SameBits(was, cur) && SameBits(wasNew, new_) && i <= |was|
    && DistinctTags(was) && DistinctTags(new_) && Owning(was) && OnlySetUp(cur)
    && (forall k :: i <= k < |was| ==> cur[k] == was[k]) && Inherited(was, i, new_) && LetGo(was, cur, new_, i)
  }

  ghost predicate PartlyMoved(
    was: seq<Segment>, cur: seq<Segment>, wasNew: seq<Segment>, new_: seq<Segment>, i: nat,
    issued: seq<nat>, cleaned: seq<Option<Extension>>)
  {
    MovedUpTo(was, cur, wasNew, new_, i) && Balanced(issued, cleaned, Held(was[i..]) + Held(new_))
  }

  lemma MovedOneMore(was: seq<Segment>, cur: seq<Segment>, wasNew: seq<Segment>, new_: seq<Segment>, i: nat, j: nat)
    requires MovedUpTo(was, cur, wasNew, new_, i) && i < |was|
    requires j < |new_| && new_[j].tag == was[i].tag
    ensures new_[j].extension == None
    ensures MovedUpTo(was, cur[i := cur[i].(extension := None)],
              wasNew, new_[j := new_[j].(extension := was[i].extension)], i + 1)
  {
    InheritOne(was, i, new_, j);
    LetGoStill(was, cur, new_, new_[j := new_[j].(extension := was[i].extension)], i);
  }

  lemma PassOver(
      was: seq<Segment>, cur: seq<Segment>, wasNew: seq<Segment>, new_: seq<Segment>, i: nat,
      issued: seq<nat>, cleaned: seq<Option<Extension>>)
    requires PartlyMoved(was, cur, wasNew, new_, i, issued, cleaned) && i < |was| && was[i].extension == None
    ensures PartlyMoved(was, cur, wasNew, new_, i + 1, issued, cleaned)
  {
    InheritNothing(was, i, new_);
    assert was[i..][1..] == was[i + 1..];
  }

  lemma MoveBalance(was: seq<Segment>, new_: seq<Segment>, i: nat, j: nat, issued: seq<nat>, cleaned: seq<Option<Extension>>)
    requires i < |was| && j < |new_| && new_[j].extension == None
    requires Balanced(issued, cleaned, Held(was[i..]) + Held(new_))
    ensures Balanced(issued, cleaned, Held(was[i + 1..]) + Held(new_[j := new_[j].(extension := was[i].extension)]))
  {
    HeldUpdate(new_, j, new_[j].(extension := was[i].extension));
    assert was[i..][1..] == was[i + 1..];
  }

  lemma MoveOne(
      was: seq<Segment>, cur: seq<Segment>, wasNew: seq<Segment>, new_: seq<Segment>, i: nat, j: nat,
      issued: seq<nat>, cleaned: seq<Option<Extension>>)
    requires PartlyMoved(was, cur, wasNew, new_, i, issued, cleaned) && i < |was| && was[i].extension.Some?
    requires j < |new_| && new_[j].tag == was[i].tag
    ensures PartlyMoved(was, cur[i := cur[i].(extension := None)],
              wasNew, new_[j := new_[j].(extension := was[i].extension)], i + 1, issued, cleaned)
  {
    MovedOneMore(was, cur, wasNew, new_, i, j);
    MoveBalance(was, new_, i, j, issued, cleaned);
  }

  lemma DropOne(
      was: seq<Segment>, cur: seq<Segment>, wasNew: seq<Segment>, new_: seq<Segment>, i: nat,
      issued: seq<nat>, cleaned: seq<Option<Extension>>)
    requires PartlyMoved(was, cur, wasNew, new_, i, issued, cleaned) && i < |was| && was[i].extension.Some?
    requires !HasTag(new_, |new_|, was[i].tag)
    ensures PartlyMoved(was, cur, wasNew, new_, i + 1, issued, cleaned + [was[i].extension])
  {
    InheritNothing(was, i, new_);
    assert was[i..][1..] == was[i + 1..];
    assert multiset(cleaned + [was[i].extension]) == multiset(cleaned) + multiset{was[i].extension};
  }

  /** The segment's extension goes to the segment of the new list with its tag. */
  method MoveOver(
      cur: SegmentList, new_: SegmentList, i: nat, j: nat, ghost was: seq<Segment>, ghost wasNew: seq<Segment>,
      ghost issued: seq<nat>, ghost cleaned: seq<Option<Extension>>)
    requires cur != new_ && i < |cur.segments| && cur.segments[i].extension.Some?
    requires PartlyMoved(was, cur.segments, wasNew, new_.segments, i, issued, cleaned)
    requires j < |new_.segments| && new_.segments[j].tag == cur.segments[i].tag
    modifies cur`segments, new_`segments
    ensures |cur.segments| == |old(cur.segments)|
    ensures PartlyMoved(was, cur.segments, wasNew, new_.segments, i + 1, issued, cleaned)
  {
    MoveOne(was, cur.segments, wasNew, new_.segments, i, j, issued, cleaned);
    new_.segments := new_.segments[j := new_.segments[j].(extension := cur.segments[i].extension)];
    cur.segments := cur.segments[i := cur.segments[i].(extension := None)];
  }

  /** One segment of the old list: hand its extension over to the segment with its tag, or clean up after it. */
  method MoveNext(cur: SegmentList, new_: SegmentList, app: Application, i: nat, ghost was: seq<Segment>, ghost wasNew: seq<Segment>)
    requires cur != new_ && i < |cur.segments|
    requires PartlyMoved(was, cur.segments, wasNew, new_.segments, i, app.issued, app.cleaned)
    modifies cur`segments, new_`segments, app
    ensures app.issued == old(app.issued) && |cur.segments| == |old(cur.segments)|
    ensures PartlyMoved(was, cur.segments, wasNew, new_.segments, i + 1, app.issued, app.cleaned)
    ensures old(OwnReturns(app.cleaned, app.cleaners)) ==> OwnReturns(app.cleaned, app.cleaners)
  {
    var s := cur.segments[i];
    if s.extension == None {
      PassOver(was, cur.segments, wasNew, new_.segments, i, app.issued, app.cleaned);
    } else {
      var j := FindTag(new_.segments, s.tag);
      if j >= 0 {
        MoveOver(cur, new_, i, j, was, wasNew, app.issued, app.cleaned);
      } else {
        DropOne(was, cur.segments, wasNew, new_.segments, i, app.issued, app.cleaned);
        assert OwnsRightly(was[i]);
        if s.command.cleanup.Some? {
          app.Cleanup(s.command.cleanup.value, s.extension);
        }
      }
    }
  }

  /** First pass: move the extensions of the segments that stay, and clean up after those that go. */
  method MoveExtensions(cur: SegmentList, new_: SegmentList, app: Application)
    requires cur != new_ && DistinctTags(cur.segments) && DistinctTags(new_.segments)
    requires Owning(cur.segments) && OnlySetUp(cur.segments) && Blank(new_.segments)
    requires Balanced(app.issued, app.cleaned, Held(cur.segments))
    modifies cur`segments, new_`segments, app
    ensures SameBits(old(cur.segments), cur.segments) && SameBits(old(new_.segments), new_.segments)
    ensures OnlySetUp(cur.segments) && LetGo(old(cur.segments), cur.segments, new_.segments, |cur.segments|)
    ensures Inherited(old(cur.segments), |old(cur.segments)|, new_.segments)
    ensures app.issued == old(app.issued)
    ensures Balanced(app.issued, app.cleaned, Held(new_.segments))
    ensures old(OwnReturns(app.cleaned, app.cleaners)) ==> OwnReturns(app.cleaned, app.cleaners)
  {
    ghost var was, wasNew := cur.segments, new_.segments;
    HeldBlank(wasNew);
    assert was[0..] == was;
    for i := 0 to |cur.segments|
      invariant app.issued == old(app.issued)
      invariant old(OwnReturns(app.cleaned, app.cleaners)) ==> OwnReturns(app.cleaned, app.cleaners)
      invariant PartlyMoved(was, cur.segments, wasNew, new_.segments, i, app.issued, app.cleaned)
    {
      MoveNext(cur, new_, app, i, was, wasNew);
    }
    assert Held([]) == multiset{};
  }

  lemma {:induction false} HeldBlank(segments: seq<Segment>)
    requires Blank(segments)
    ensures Held(segments) == multiset{}
  {
    if segments != [] { HeldBlank(segments[1..]); }
  }

  /** What becomes of a segment of the new list: set up if it is new, has a Setup and no extension; else as it was. */
  ghost predicate Added(cur: seq<Segment>, was: Segment, now: Segment) {
    if was.extension == None && !HasTag(cur, |cur|, was.tag) && was.command.setup.Some? then
      now.extension.Some? && now.extension.value.maker == was.command.setup.value && now == was.(extension := now.extension)
    else now == was
  }

  ghost predicate PartlyAdded(cur: seq<Segment>, was: seq<Segment>, now: seq<Segment>, j: nat) {
    && |was| == |now| && j <= |now|
    && (forall k :: 0 <= k < j ==> Added(cur, was[k], now[k]))
    && (forall k :: j <= k < |now| ==> now[k] == was[k])
  }

  lemma AddOne(cur: seq<Segment>, was: seq<Segment>, now: seq<Segment>, j: nat, extension: Option<Extension>)
    requires PartlyAdded(cur, was, now, j) && j < |now| && extension.Some?
    requires now[j].extension == None && !HasTag(cur, |cur|, now[j].tag) && now[j].command.setup == Some(extension.value.maker)
    ensures PartlyAdded(cur, was, now[j := now[j].(extension := extension)], j + 1)
  {
  }

  lemma AddBalance(now: seq<Segment>, j: nat, issued: seq<nat>, cleaned: seq<Option<Extension>>, maker: nat)
    requires j < |now| && now[j].extension == None && Balanced(issued, cleaned, Held(now))
    ensures Balanced(issued + [maker], cleaned, Held(now[j := now[j].(extension := Some(Extension(|issued|, maker)))]))
  {
    IssuedMore(issued, maker);
    HeldUpdate(now, j, now[j].(extension := Some(Extension(|issued|, maker))));
  }

  /** Second pass: set up the segments that are new. */
  method SetupNewSegments(cur: SegmentList, new_: SegmentList, app: Application)
    requires cur != new_ && Balanced(app.issued, app.cleaned, Held(new_.segments))
    modifies new_`segments, app
    ensures PartlyAdded(cur.segments, old(new_.segments), new_.segments, |new_.segments|)
    ensures app.cleaned == old(app.cleaned) && app.cleaners == old(app.cleaners)
    ensures Balanced(app.issued, app.cleaned, Held(new_.segments))
  {
    ghost var was := new_.segments;
    for j := 0 to |new_.segments|
      invariant PartlyAdded(cur.segments, was, new_.segments, j)
      invariant app.cleaned == old(app.cleaned) && app.cleaners == old(app.cleaners)
      invariant Balanced(app.issued, app.cleaned, Held(new_.segments))
    {
      var s := new_.segments[j];
      if s.extension == None {
        var i := FindTag(cur.segments, s.tag);
        if i < 0 && s.command.setup.Some? {
          AddBalance(new_.segments, j, app.issued, app.cleaned, s.command.setup.value);
          var extension := app.Setup(s.command.setup.value);
          AddOne(cur.segments, was, new_.segments, j, extension);
          new_.segments := new_.segments[j := s.(extension := extension)];
        }
      }
    }
  }

  /** A segment that stays keeps the extension it had. */
  ghost predicate Inherits(was: seq<Segment>, now: seq<Segment>) {
    forall i, j :: 0 <= i < |was| && 0 <= j < |now| && was[i].tag == now[j].tag ==> now[j].extension == was[i].extension
  }

  /**
   * The running list hands over to its replacement. Nothing is lost on the way, and the replacement is left in the
   * state in which a running list has to be exactly when tags shared by the two lists name the same kind of command.
   */
  method ImportSegmentExtensions(cur: SegmentList, new_: SegmentList, app: Application)
    requires cur != new_ && DistinctTags(cur.segments) && DistinctTags(new_.segments)
    requires Owning(cur.segments) && Paired(cur.segments) && Paired(new_.segments) && Blank(new_.segments)
    requires Balanced(app.issued, app.cleaned, Held(cur.segments))
    modifies cur`segments, new_`segments, app
    ensures SameBits(old(cur.segments), cur.segments) && SameBits(old(new_.segments), new_.segments)
    ensures OnlySetUp(cur.segments) && LetGo(old(cur.segments), cur.segments, new_.segments, |cur.segments|)
    ensures Inherits(old(cur.segments), new_.segments)
    ensures Balanced(app.issued, app.cleaned, Held(new_.segments))
    ensures old(OwnReturns(app.cleaned, app.cleaners)) ==> OwnReturns(app.cleaned, app.cleaners)
    ensures Owning(new_.segments) <==> SameCommands(cur.segments, new_.segments)
  {
    MoveExtensions(cur, new_, app);
    ghost var moved := new_.segments;
    SetupNewSegments(cur, new_, app);
    Handover(old(cur.segments), cur.segments, old(new_.segments), moved, new_.segments);
  }

  lemma Handover(was: seq<Segment>, cur: seq<Segment>, blank: seq<Segment>, moved: seq<Segment>, now: seq<Segment>)
    requires Owning(was) && Paired(was) && Paired(blank) && SameBits(was, cur) && SameBits(blank, moved)
    requires Inherited(was, |was|, moved) && PartlyAdded(cur, moved, now, |now|)
    requires LetGo(was, cur, moved, |cur|)
    ensures SameBits(blank, now) && Inherits(was, now) && LetGo(was, cur, now, |cur|)
    ensures Owning(now) <==> SameCommands(cur, now)
  {
    LetGoStill(was, cur, moved, now, |cur|);
  }

  /**
   * A list hands over to another one, which is then stopped. The application has got back each extension it ever handed
   * out exactly once, and to the Cleanup that belongs to its Setup, and never a null, exactly if shared tags name commands
   * with the same callbacks.
   */
  method HandOverAndStop(cur: SegmentList, new_: SegmentList, app: Application)
    requires cur != new_ && DistinctTags(cur.segments) && DistinctTags(new_.segments)
    requires Owning(cur.segments) && Paired(cur.segments) && Paired(new_.segments) && Blank(new_.segments)
    requires Balanced(app.issued, app.cleaned, Held(cur.segments)) && OwnReturns(app.cleaned, app.cleaners)
    modifies cur`segments, new_`segments, app
    ensures Balanced(app.issued, app.cleaned, multiset{}) && OwnReturns(app.cleaned, app.cleaners)
      <==> old(SameCommands(cur.segments, new_.segments))
  {
    ImportSegmentExtensions(cur, new_, app);
    CleanupSettlesIffOwning(app.issued, app.cleaned, app.cleaners, new_.segments);
    CleanupAllSegments(new_, app);
  }

  /** Such lists exist: the code does not keep a tag from being used for another command in the replacement. */
  lemma ReusedTag()
    ensures
      var cur := [Segment(7, Command(Some(1), Some(1)), Some(Extension(0, 1)))];
      var new_ := [Segment(7, Command(Some(2), Some(2)), None)];
      && DistinctTags(cur) && DistinctTags(new_) && Owning(cur) && Paired(cur) && Paired(new_) && Blank(new_)
      && Balanced([1], [], Held(cur)) && OwnReturns([], []) && !SameCommands(cur, new_)
  {
    var cur := [Segment(7, Command(Some(1), Some(1)), Some(Extension(0, 1)))];
    assert cur[1..] == [];
    assert Held(cur) == multiset{Some(Extension(0, 1))} + Held([]);
    assert [1][..0] == [] && Issued([1]) == Issued([]) + multiset{Some(Extension(0, 1))};
    var new_ := [Segment(7, Command(Some(2), Some(2)), None)];
    assert cur[0].tag == new_[0].tag && cur[0].command != new_[0].command;
  }
}
