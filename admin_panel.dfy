/**
 * The list logic of components/AdminPanel.js: the events loaded from the backend,
 * the website filter, the deduplicated website list with "All" in front, the default
 * selection, and the dropdown state.
 */
module AdminPanel {
  import opened Common

  /** An event as the backend and the socket deliver it; only `who` drives the logic. */
  datatype Event = Event(kind: string, who: string, createdAt: int)

  /** The answer of `getPayload()`: a body whose `data` field may be missing, or a
      failure carrying the error's `message`. */
  datatype FetchOutcome = Loaded(data: Option<seq<Event>>) | FetchFailed(message: string)

  const All: string := "All"
  const NoRecentEvents: string := "No recent events"
  const FetchErrorPrefix: string := "Error fetching data: "

  // ----- Filtering -----

  /** `events.filter(event => event.who === site)`. */
  function FromSite(events: seq<Event>, site: string): (r: seq<Event>)
    ensures |r| <= |events|
    ensures forall i :: 0 <= i < |r| ==> r[i].who == site
  {
    if events == [] then []
    else (if events[0].who == site then [events[0]] else []) + FromSite(events[1..], site)
  }

  /** `getFilteredEvents()`. */
  function FilteredEvents(response: seq<Event>, selected: string): (r: seq<Event>)
    ensures selected == All ==> r == response
    ensures selected != All ==> r == FromSite(response, selected)
  {
    if selected == All then response else FromSite(response, selected)
  }

  /** `a` can be obtained from `b` by deleting elements. */
  predicate IsSubsequence<T(==)>(a: seq<T>, b: seq<T>)
    decreases |b|
  {
    a == [] || (b != [] && if a[0] == b[0] then IsSubsequence(a[1..], b[1..]) else IsSubsequence(a, b[1..]))
  }

  lemma {:induction false} SubsequenceOfSelf<T>(s: seq<T>)
    ensures IsSubsequence(s, s)
    decreases |s|
  {
    if s != [] {
      SubsequenceOfSelf(s[1..]);
    }
  }

  /** The filter keeps the original order: its result is a subsequence of the response. */
  lemma {:induction false} FromSiteIsSubsequence(events: seq<Event>, site: string)
    ensures IsSubsequence(FromSite(events, site), events)
    decreases |events|
  {
    if events != [] {
      FromSiteIsSubsequence(events[1..], site);
      if events[0].who == site {
        assert FromSite(events, site) == [events[0]] + FromSite(events[1..], site);
        assert FromSite(events, site)[1..] == FromSite(events[1..], site);
      } else {
        assert FromSite(events, site) == FromSite(events[1..], site);
        if FromSite(events, site) != [] {
          assert FromSite(events, site)[0] != events[0];
        }
      }
    }
  }

  /** The filter keeps exactly the events from the site: each one as often as it occurs
      in the response, and nothing else. */
  lemma {:induction false} FromSiteCounts(events: seq<Event>, site: string)
    ensures forall e :: multiset(FromSite(events, site))[e] == if e.who == site then multiset(events)[e] else 0
    decreases |events|
  {
    if events != [] {
      FromSiteCounts(events[1..], site);
      assert events == [events[0]] + events[1..];
      assert multiset(events) == multiset{events[0]} + multiset(events[1..]);
    }
  }

  /** Filtering the filtered list by the same selection changes nothing. */
  lemma {:induction false} FromSiteIdempotent(events: seq<Event>, site: string)
    ensures FromSite(FromSite(events, site), site) == FromSite(events, site)
    decreases |events|
  {
    if events != [] {
      var rest := FromSite(events[1..], site);
      FromSiteIdempotent(events[1..], site);
      if events[0].who == site {
        var r := [events[0]] + rest;
        assert FromSite(events, site) == r;
        assert r[0] == events[0] && r[1..] == rest;
        assert FromSite(r, site) == [events[0]] + FromSite(rest, site);
      } else {
        assert FromSite(events, site) == rest;
      }
    }
  }

  /** The properties of `getFilteredEvents`: "All" gives the response unchanged; any
      other selection gives the events from that site, in order, each as often as in
      the response; filtering again by the same selection changes nothing. */
  lemma FilteredEventsProperties(response: seq<Event>, selected: string)
    ensures IsSubsequence(FilteredEvents(response, selected), response)
    ensures selected != All ==>
              forall e :: multiset(FilteredEvents(response, selected))[e] ==
                            if e.who == selected then multiset(response)[e] else 0
    ensures FilteredEvents(FilteredEvents(response, selected), selected) == FilteredEvents(response, selected)
  {
    if selected == All {
      SubsequenceOfSelf(response);
    } else {
      FromSiteIsSubsequence(response, selected);
      FromSiteCounts(response, selected);
      FromSiteIdempotent(response, selected);
    }
  }

  // ----- Website list -----

  predicate NoDuplicates<T(==)>(s: seq<T>)
  {
    forall i, j :: 0 <= i < j < |s| ==> s[i] != s[j]
  }

  /** `(data || []).map(event => event.who)`. */
  function Whos(events: seq<Event>): (ws: seq<string>)
    ensures |ws| == |events|
    ensures forall i :: 0 <= i < |events| ==> ws[i] == events[i].who
  {
    seq(|events|, i requires 0 <= i < |events| => events[i].who)
  }

  /** `[...new Set(s)]`: each value once, in the order it was first inserted. */
  function Distinct(s: seq<string>): (d: seq<string>)
    ensures NoDuplicates(d)
    ensures forall x :: x in d <==> x in s
    ensures |d| <= |s|
  {
    if s == [] then []
    else
      var d := Distinct(s[..|s| - 1]);
      if s[|s| - 1] in d then d else d + [s[|s| - 1]]
  }

  /** Index of the first occurrence of `x` in `s`. */
  function FirstIndex(s: seq<string>, x: string): (k: nat)
    requires x in s
    ensures k < |s| && s[k] == x && forall i :: 0 <= i < k ==> s[i] != x
  {
    if s[0] == x then 0 else 1 + FirstIndex(s[1..], x)
  }

  lemma {:induction false} FirstIndexExtend(s: seq<string>, y: string, x: string)
    requires x in s
    ensures FirstIndex(s + [y], x) == FirstIndex(s, x)
  {
    var k := FirstIndex(s, x);
    var k' := FirstIndex(s + [y], x);
    assert (s + [y])[k] == x;
    assert k' <= k;
    assert s[k'] == x;
  }

  /** The set keeps first-occurrence order: values appear in the order in which each
      first occurs in `s`. */
  lemma {:induction false} DistinctFirstOccurrenceOrder(s: seq<string>)
    ensures forall i, j :: 0 <= i < j < |Distinct(s)| ==> FirstIndex(s, Distinct(s)[i]) < FirstIndex(s, Distinct(s)[j])
    decreases |s|
  {
    if s != [] {
      var p, x := s[..|s| - 1], s[|s| - 1];
      assert s == p + [x];
      DistinctFirstOccurrenceOrder(p);
      var dp := Distinct(p);
      var d := Distinct(s);
      assert d == if x in dp then dp else dp + [x];
      forall i, j | 0 <= i < j < |d| ensures FirstIndex(s, d[i]) < FirstIndex(s, d[j]) {
        assert d[i] == dp[i] && dp[i] in p;
        FirstIndexExtend(p, x, dp[i]);
        if j < |dp| {
          assert d[j] == dp[j] && dp[j] in p;
          FirstIndexExtend(p, x, dp[j]);
          assert FirstIndex(p, dp[i]) < FirstIndex(p, dp[j]);
        } else {
          assert d[j] == x && x !in p;
          assert forall k :: 0 <= k < |p| ==> s[k] != x;
          assert FirstIndex(s, x) == |p|;
        }
      }
    }
  }

  /** The first value of the set is the first value inserted. */
  lemma {:induction false} DistinctHead(s: seq<string>)
    requires s != []
    ensures Distinct(s) != [] && Distinct(s)[0] == s[0]
    decreases |s|
  {
    if |s| > 1 {
      DistinctHead(s[..|s| - 1]);
    }
  }

  /** `['All', ...websites]`. */
  function WebsiteOptions(events: seq<Event>): seq<string>
  {
    [All] + Distinct(Whos(events))
  }

  /** Every `who` of the response is in the set of `who` values, and only those are. */
  lemma WhosCoverage(events: seq<Event>)
    ensures forall e :: e in events ==> e.who in Distinct(Whos(events))
    ensures forall w :: w in Distinct(Whos(events)) ==> exists i :: 0 <= i < |events| && events[i].who == w
  {
    var ws := Whos(events);
    forall e | e in events ensures e.who in Distinct(ws) {
      var i :| 0 <= i < |events| && events[i] == e;
      assert ws[i] == e.who;
    }
    forall w | w in Distinct(ws) ensures exists i :: 0 <= i < |events| && events[i].who == w {
      var i :| 0 <= i < |ws| && ws[i] == w;
      assert events[i].who == w;
    }
  }

  /** The website list is "All" followed by each distinct `who` once, in order of first
      occurrence, and every `who` of the response is offered. */
  lemma WebsiteOptionsProperties(events: seq<Event>)
    ensures var ws := WebsiteOptions(events);
      && ws[0] == All
      && NoDuplicates(ws[1..])
      && (forall e :: e in events ==> e.who in ws)
      && (forall w :: w in ws[1..] ==> exists i :: 0 <= i < |events| && events[i].who == w)
      && (forall i, j :: 1 <= i < j < |ws| ==> FirstIndex(Whos(events), ws[i]) < FirstIndex(Whos(events), ws[j]))
  {
    var d := Distinct(Whos(events));
    var ws := [All] + d;
    assert ws[1..] == d;
    WhosCoverage(events);
    DistinctFirstOccurrenceOrder(Whos(events));
    forall i, j | 1 <= i < j < |ws|
      ensures FirstIndex(Whos(events), ws[i]) < FirstIndex(Whos(events), ws[j])
    {
      assert ws[i] == d[i - 1] && ws[j] == d[j - 1];
      assert FirstIndex(Whos(events), d[i - 1]) < FirstIndex(Whos(events), d[j - 1]);
    }
  }

  /** `if (websites.length > 0) setSelectedWebsite(websites[0])`. */
  function DefaultSelection(current: string, events: seq<Event>): (s: string)
  {
    var websites := Distinct(Whos(events));
    if |websites| > 0 then websites[0] else current
  }

  /** After a load the selection is the site of the first event, or unchanged when the
      list is empty; either way it is offered in the website list. */
  lemma DefaultSelectionIsFirstSite(current: string, events: seq<Event>)
    ensures events != [] ==> DefaultSelection(current, events) == events[0].who
    ensures events == [] ==> DefaultSelection(current, events) == current
    ensures events != [] || current == All ==> DefaultSelection(current, events) in WebsiteOptions(events)
  {
    if events != [] {
      DistinctHead(Whos(events));
      assert Whos(events)[0] == events[0].who;
    }
  }

  // ----- What the "All Events" section shows -----

  /** The "Total Calls" figure. */
  function TotalCalls(response: seq<Event>, selected: string): nat
  {
    |FilteredEvents(response, selected)|
  }

  /** The message shown in place of the list, if any. */
  function EmptyMessage(response: seq<Event>, selected: string): Option<string>
  {
    if |FilteredEvents(response, selected)| != 0 then None
    else if |response| == 0 then Some(NoRecentEvents)
    else Some("No events from " + selected)
  }

  /** The list and its message: a message appears exactly when Total Calls is 0; it
      says "No recent events" when nothing was loaded and "No events from <selection>"
      otherwise; with "All" selected it appears only when nothing was loaded, and never
      for a site some loaded event came from. */
  lemma {:induction false} EmptyMessageProperties(response: seq<Event>, selected: string)
    ensures EmptyMessage(response, selected).Some? <==> TotalCalls(response, selected) == 0
    ensures TotalCalls(response, selected) <= |response|
    ensures selected == All ==> TotalCalls(response, selected) == |response|
    ensures response == [] ==> EmptyMessage(response, selected) == Some(NoRecentEvents)
    ensures response != [] && TotalCalls(response, selected) == 0 ==>
              EmptyMessage(response, selected) == Some("No events from " + selected)
    ensures (exists i :: 0 <= i < |response| && response[i].who == selected) ==> EmptyMessage(response, selected) == None
  {
    if exists i :: 0 <= i < |response| && response[i].who == selected {
      var i :| 0 <= i < |response| && response[i].who == selected;
      if selected != All {
        FromSiteCounts(response, selected);
        assert response[i] in multiset(response);
        assert response[i] in multiset(FromSite(response, selected));
      }
    }
  }

  // ----- Component state -----

  class PanelState {
    var response: seq<Event>
    var availableWebsites: seq<string>
    var selectedWebsite: string
    var showDropdown: bool
    var error: Option<string>

    /** The initial `useState` values. */
    constructor ()
      ensures response == [] && availableWebsites == [All] && selectedWebsite == All
      ensures !showDropdown && error == None
    {
      response, availableWebsites, selectedWebsite := [], [All], All;
      showDropdown, error := false, None;
    }

    /** The post-processing of `fetchPayload` once `getPayload()` has answered. */
    method FetchPayload(outcome: FetchOutcome)
      modifies this`response, this`availableWebsites, this`selectedWebsite, this`error
      ensures outcome.Loaded? ==>
                var data := if outcome.data.Some? then outcome.data.value else [];
                && response == data
                && availableWebsites == WebsiteOptions(data)
                && selectedWebsite == DefaultSelection(old(selectedWebsite), data)
                && error == old(error)
      ensures outcome.FetchFailed? ==>
                && error == Some(FetchErrorPrefix + outcome.message)
                && response == old(response) && availableWebsites == old(availableWebsites)
                && selectedWebsite == old(selectedWebsite)
    {
      match outcome
      case FetchFailed(message) =>
        error := Some(FetchErrorPrefix + message);
      case Loaded(data) =>
        var events := if data.Some? then data.value else [];
        response := events;
        var websites := Distinct(Whos(events));
        availableWebsites := [All] + websites;
        if |websites| > 0 {
          selectedWebsite := websites[0];
        }
    }

    /** The dropdown button. */
    method ToggleDropdown()
      modifies this`showDropdown
      ensures showDropdown == !old(showDropdown)
    {
      showDropdown := !showDropdown;
    }

    /** Picking an item of the dropdown. */
    method SelectWebsite(website: string)
      modifies this`selectedWebsite, this`showDropdown
      ensures selectedWebsite == website && !showDropdown
    {
      selectedWebsite := website;
      showDropdown := false;
    }
  }
}
