/** Pairing compositor windows with the browser's own window list by title, greedily. */
module BrowserSession {
  import opened Text

  datatype LiveTab = LiveTab(url: string, title: string, active: bool)

  datatype LiveWindow = LiveWindow(id: int, tabs: seq<LiveTab>)

  datatype Client = Client(title: string, workspace: string)

  datatype SessionWindow = SessionWindow(workspace: string, urls: seq<string>, title: string)

  /** A matching score, or None when the titles do not match. */
  type Score = Option<nat>

  predicate Contains(s: string, part: string) {
    part <= s || (s != "" && Contains(s[1..], part))
  }

  /** The score of one tab for a normalized window title. */
  function TabScore(norm: string -> string, title: string, tab: LiveTab): Score {
    var t := norm(tab.title);
    if t == "" then None
    else if title == t then Some(if tab.active then 300 else 200)
    else if Contains(title, t) || Contains(t, title) then Some(if tab.active then 150 else 100)
    else None
  }

  /** `b` is no better than `a`. */
  predicate AtMost(b: Score, a: Score) {
    b.Some? ==> a.Some? && b.value <= a.value
  }

  function BestTab(norm: string -> string, title: string, tabs: seq<LiveTab>): Score {
    if tabs == [] then None
    else
      var first, rest := TabScore(norm, title, tabs[0]), BestTab(norm, title, tabs[1..]);
      if AtMost(first, rest) then rest else first
  }

  /** `title_match_score`, for the title normalization `norm`. */
  function TitleMatchScore(norm: string -> string, title: string, live: LiveWindow): Score {
    if norm(title) == "" then None else BestTab(norm, norm(title), live.tabs)
  }

  /** The score of a window is the best of its tabs. */
  lemma {:induction false} BestTabIsMax(norm: string -> string, title: string, tabs: seq<LiveTab>)
    ensures forall t | t in tabs :: AtMost(TabScore(norm, title, t), BestTab(norm, title, tabs))
    ensures BestTab(norm, title, tabs).Some? ==>
      exists t :: t in tabs && TabScore(norm, title, t) == BestTab(norm, title, tabs)
  {
    if tabs != [] {
      BestTabIsMax(norm, title, tabs[1..]);
      HeadTail(tabs);
      assert tabs[0] in tabs;
    }
  }

  /** `part` stands somewhere in `s`. */
  ghost predicate Inside(s: string, part: string) {
    exists i: nat :: i <= |s| && part <= s[i..]
  }

  lemma {:induction false} ContainsIs(s: string, part: string)
    ensures Contains(s, part) <==> Inside(s, part)
  {
    Whole(s);
    if s != "" {
      ContainsIs(s[1..], part);
      if Inside(s[1..], part) {
        var i: nat :| i <= |s[1..]| && part <= s[1..][i..];
        assert s[1..][i..] == s[i + 1..];
      }
      if Inside(s, part) && !(part <= s) {
        var i: nat :| i <= |s| && part <= s[i..];
        assert s[i..] == s[1..][i - 1..];
      }
    }
  }

  /** A tab scores exactly if it has a title and that and the window's are equal or one stands in the other. */
  lemma TabMatches(norm: string -> string, title: string, tab: LiveTab)
    ensures TabScore(norm, title, tab).Some? <==>
      var t := norm(tab.title); t != "" && (Inside(title, t) || Inside(t, title))
  {
    ContainsIs(title, norm(tab.title));
    ContainsIs(norm(tab.title), title);
    Whole(title);
  }

  /** How well a tab fits: 0 not at all, then in part, in part and active, exactly, exactly and active. */
  ghost function Fit(norm: string -> string, title: string, tab: LiveTab): nat {
    var t := norm(tab.title);
    if t == "" || !(Inside(title, t) || Inside(t, title)) then 0
    else (if t == title then 3 else 1) + (if tab.active then 1 else 0)
  }

  /** The scores rank tabs by how well they fit. */
  lemma TabsRanked(norm: string -> string, title: string, a: LiveTab, b: LiveTab)
    ensures AtMost(TabScore(norm, title, a), TabScore(norm, title, b))
      <==> Fit(norm, title, a) <= Fit(norm, title, b)
  {
    TabMatches(norm, title, a);
    TabMatches(norm, title, b);
    Whole(title);
  }

  /** So a window with a tab that fits better than every tab of another window scores better. */
  lemma WindowsRanked(norm: string -> string, title: string, a: LiveWindow, b: LiveWindow, t: LiveTab)
    requires norm(title) != "" && t in a.tabs && Fit(norm, norm(title), t) > 0
    requires forall u | u in b.tabs :: Fit(norm, norm(title), u) < Fit(norm, norm(title), t)
    ensures !AtMost(TitleMatchScore(norm, title, a), TitleMatchScore(norm, title, b))
  {
    var best := norm(title);
    BestTabIsMax(norm, best, a.tabs);
    BestTabIsMax(norm, best, b.tabs);
    TabMatches(norm, best, t);
    if BestTab(norm, best, b.tabs).Some? {
      var u :| u in b.tabs && TabScore(norm, best, u) == BestTab(norm, best, b.tabs);
      TabsRanked(norm, best, t, u);
    }
  }

  function SessionWindowFromLive(workspace: string, live: LiveWindow): SessionWindow {
    SessionWindow(workspace, Urls(live.tabs), ActiveTitle(live.tabs, live.tabs))
  }

  function Urls(tabs: seq<LiveTab>): seq<string> {
    if tabs == [] then [] else [tabs[0].url] + Urls(tabs[1..])
  }

  /** The title of the first active tab, else of the first tab, else nothing. */
  function ActiveTitle(rest: seq<LiveTab>, all: seq<LiveTab>): string {
    if rest != [] then (if rest[0].active then rest[0].title else ActiveTitle(rest[1..], all))
    else if all != [] then all[0].title
    else ""
  }

  lemma {:induction false} UrlsAt(tabs: seq<LiveTab>)
    ensures |Urls(tabs)| == |tabs| && forall i | 0 <= i < |tabs| :: Urls(tabs)[i] == tabs[i].url
  {
    if tabs != [] { UrlsAt(tabs[1..]); }
  }

  lemma {:induction false} ActiveTitleIs(rest: seq<LiveTab>, all: seq<LiveTab>, i: nat)
    requires i <= |rest| && forall k | 0 <= k < i :: !rest[k].active
    ensures i < |rest| && rest[i].active ==> ActiveTitle(rest, all) == rest[i].title
    ensures i == |rest| ==> ActiveTitle(rest, all) == if all == [] then "" else all[0].title
  {
    if i > 0 { ActiveTitleIs(rest[1..], all, i - 1); }
  }

  /** A saved window has the tabs' URLs in order, and the title of the first active tab, else of the first one. */
  lemma WindowSaved(workspace: string, live: LiveWindow, i: nat)
    requires i <= |live.tabs| && forall k | 0 <= k < i :: !live.tabs[k].active
    ensures var w := SessionWindowFromLive(workspace, live);
      && w.workspace == workspace && |w.urls| == |live.tabs|
      && (forall k | 0 <= k < |live.tabs| :: w.urls[k] == live.tabs[k].url)
      && (i < |live.tabs| && live.tabs[i].active ==> w.title == live.tabs[i].title)
      && (i == |live.tabs| ==> w.title == if live.tabs == [] then "" else live.tabs[0].title)
  {
    UrlsAt(live.tabs);
    ActiveTitleIs(live.tabs, live.tabs, i);
  }

  ghost predicate LastBest(norm: string -> string, client: Client, unused: seq<LiveWindow>, best: nat) {
    && best < |unused|
    && TitleMatchScore(norm, client.title, unused[best]).Some?
    && (forall i | 0 <= i < |unused| ::
          AtMost(TitleMatchScore(norm, client.title, unused[i]), TitleMatchScore(norm, client.title, unused[best])))
    && (forall i | best < i < |unused| ::
          TitleMatchScore(norm, client.title, unused[i]) != TitleMatchScore(norm, client.title, unused[best]))
  }

  /** `best_live_match`: the last of the best-scoring windows. */
  method BestLiveMatch(norm: string -> string, client: Client, unused: seq<LiveWindow>)
    returns (best: Option<nat>)
    ensures best.Some? ==> LastBest(norm, client, unused, best.value)
    ensures best.None? ==> forall i | 0 <= i < |unused| :: TitleMatchScore(norm, client.title, unused[i]).None?
  {
    best := None;
    var score: Score := None;
    for k := 0 to |unused|
      invariant best.Some? <==> score.Some?
      invariant best.Some? ==> best.value < k && TitleMatchScore(norm, client.title, unused[best.value]) == score
      invariant forall i | 0 <= i < k :: AtMost(TitleMatchScore(norm, client.title, unused[i]), score)
      invariant best.Some? ==> forall i | best.value < i < k :: TitleMatchScore(norm, client.title, unused[i]) != score
    {
      var s := TitleMatchScore(norm, client.title, unused[k]);
      if s.Some? && AtMost(score, s) {
        best, score := Some(k), s;
      }
    }
  }

  /** Client `client` of the compositor was paired with window `live` of the browser. */
  datatype Pair = Pair(client: int, live: int)

  function Clients(pairs: seq<Pair>): set<int> {
    if pairs == [] then {} else Clients(pairs[..|pairs| - 1]) + {pairs[|pairs| - 1].client}
  }

  function Lives(pairs: seq<Pair>): set<int> {
    if pairs == [] then {} else Lives(pairs[..|pairs| - 1]) + {pairs[|pairs| - 1].live}
  }

  lemma PairsSnoc(pairs: seq<Pair>, p: Pair)
    ensures Lives(pairs + [p]) == Lives(pairs) + {p.live}
    ensures Clients(pairs + [p]) == Clients(pairs) + {p.client}
  {
    assert (pairs + [p])[..|pairs + [p]| - 1] == pairs;
  }

  ghost predicate InRange(pairs: seq<Pair>, clients: nat, lives: nat) {
    forall a | 0 <= a < |pairs| :: 0 <= pairs[a].client < clients && 0 <= pairs[a].live < lives
  }

  /** Pairs follow the client order, and each uses a window that no earlier one used. */
  ghost predicate Orderly(pairs: seq<Pair>) {
    && (forall a, b | 0 <= a < b < |pairs| :: pairs[a].client < pairs[b].client)
    && (forall a | 0 <= a < |pairs| :: pairs[a].live !in Lives(pairs[..a]))
  }

  /** Each pair scores, and no window still unused when it was made scores higher. */
  ghost predicate Greedy(norm: string -> string, hypr: seq<Client>, live: seq<LiveWindow>, pairs: seq<Pair>)
    requires InRange(pairs, |hypr|, |live|)
  {
    forall a | 0 <= a < |pairs| ::
      BestOfUnused(norm, hypr[pairs[a].client].title, live, Lives(pairs[..a]), pairs[a].live)
  }

  ghost predicate BestOfUnused(
    norm: string -> string, title: string, live: seq<LiveWindow>, used: set<int>, won: int)
    requires 0 <= won < |live|
  {
    && TitleMatchScore(norm, title, live[won]).Some?
    && forall j | 0 <= j < |live| && j !in used ::
         AtMost(TitleMatchScore(norm, title, live[j]), TitleMatchScore(norm, title, live[won]))
  }

  /** No unpaired client among the first `seen` has a score against a window that is still unused. */
  ghost predicate Maximal(
    norm: string -> string, hypr: seq<Client>, live: seq<LiveWindow>, pairs: seq<Pair>, seen: nat)
    requires seen <= |hypr|
  {
    forall c, j | 0 <= c < seen && 0 <= j < |live| && c !in Clients(pairs) && j !in Lives(pairs) ::
      TitleMatchScore(norm, hypr[c].title, live[j]).None?
  }

  lemma ExtendOrderly(pairs: seq<Pair>, p: Pair, lives: nat)
    requires 0 <= p.client && InRange(pairs, p.client, lives) && Orderly(pairs)
    requires 0 <= p.live < lives && p.live !in Lives(pairs)
    ensures InRange(pairs + [p], p.client + 1, lives) && Orderly(pairs + [p])
  {
    Parts(pairs, [p]);
    var all := pairs + [p];
    forall a | 0 <= a < |all|
      ensures all[a].live !in Lives(all[..a])
    {
      if a < |pairs| { assert all[..a] == pairs[..a]; }
    }
  }

  lemma ExtendGreedy(norm: string -> string, hypr: seq<Client>, live: seq<LiveWindow>, pairs: seq<Pair>, p: Pair)
    requires InRange(pairs, |hypr|, |live|) && InRange(pairs + [p], |hypr|, |live|)
    requires Greedy(norm, hypr, live, pairs)
    requires 0 <= p.client < |hypr| && 0 <= p.live < |live|
    requires BestOfUnused(norm, hypr[p.client].title, live, Lives(pairs), p.live)
    ensures Greedy(norm, hypr, live, pairs + [p])
  {
    Parts(pairs, [p]);
    var all := pairs + [p];
    forall a | 0 <= a < |all|
      ensures BestOfUnused(norm, hypr[all[a].client].title, live, Lives(all[..a]), all[a].live)
    {
      if a < |pairs| { assert all[..a] == pairs[..a] && all[a] == pairs[a]; }
    }
  }

  lemma ExtendMaximal(norm: string -> string, hypr: seq<Client>, live: seq<LiveWindow>, pairs: seq<Pair>, p: Pair)
    requires 0 <= p.client < |hypr| && Maximal(norm, hypr, live, pairs, p.client)
    ensures Maximal(norm, hypr, live, pairs + [p], p.client + 1)
  {
    PairsSnoc(pairs, p);
  }

  function Without<T>(s: seq<T>, i: nat): seq<T>
    requires i < |s|
  {
    s[..i] + s[i + 1..]
  }

  /** The windows still unused, by their index in the browser's list. */
  ghost predicate Unused(live: seq<LiveWindow>, used: set<int>, unused: seq<LiveWindow>, slots: seq<int>) {
    && |slots| == |unused|
    && (forall i | 0 <= i < |slots| :: 0 <= slots[i] < |live| && slots[i] !in used && unused[i] == live[slots[i]])
    && (forall j | 0 <= j < |live| && j !in used :: j in slots)
    && (forall a, b | 0 <= a < b < |slots| :: slots[a] != slots[b])
  }

  lemma InWithout(slots: seq<int>, i: nat, j: int)
    requires i < |slots| && j in slots && j != slots[i]
    ensures j in Without(slots, i)
  {
    Cut(slots, i);
  }

  lemma UnusedRemove(live: seq<LiveWindow>, used: set<int>, unused: seq<LiveWindow>, slots: seq<int>, i: nat)
    requires Unused(live, used, unused, slots) && i < |slots|
    ensures Unused(live, used + {slots[i]}, Without(unused, i), Without(slots, i))
  {
    forall j | 0 <= j < |live| && j !in used + {slots[i]}
      ensures j in Without(slots, i)
    {
      InWithout(slots, i, j);
    }
    var u, s := Without(unused, i), Without(slots, i);
    assert forall k | 0 <= k < |s| :: s[k] == slots[if k < i then k else k + 1];
    assert forall k | 0 <= k < |u| :: u[k] == unused[if k < i then k else k + 1];
  }

  lemma BestIsBestOfUnused(
    norm: string -> string, client: Client, live: seq<LiveWindow>, used: set<int>, unused: seq<LiveWindow>,
    slots: seq<int>, best: nat)
    requires Unused(live, used, unused, slots) && LastBest(norm, client, unused, best)
    ensures BestOfUnused(norm, client.title, live, used, slots[best])
  {
    forall j | 0 <= j < |live| && j !in used
      ensures AtMost(TitleMatchScore(norm, client.title, live[j]), TitleMatchScore(norm, client.title, unused[best]))
    {
      var k :| 0 <= k < |slots| && slots[k] == j;
      assert unused[k] == live[j];
    }
  }

  lemma NoneLeft(
    norm: string -> string, hypr: seq<Client>, live: seq<LiveWindow>, pairs: seq<Pair>, c: nat,
    unused: seq<LiveWindow>, slots: seq<int>)
    requires c < |hypr| && Unused(live, Lives(pairs), unused, slots) && Maximal(norm, hypr, live, pairs, c)
    requires forall i | 0 <= i < |unused| :: TitleMatchScore(norm, hypr[c].title, unused[i]).None?
    ensures Maximal(norm, hypr, live, pairs, c + 1)
  {
    forall j | 0 <= j < |live| && j !in Lives(pairs)
      ensures TitleMatchScore(norm, hypr[c].title, live[j]).None?
    {
      var k :| 0 <= k < |slots| && slots[k] == j;
      assert unused[k] == live[j];
    }
  }

  /** All that holds of the pairs made for the first `c` clients. */
  ghost predicate Matched(norm: string -> string, hypr: seq<Client>, live: seq<LiveWindow>, pairs: seq<Pair>, c: nat)
    requires c <= |hypr|
  {
    && InRange(pairs, c, |live|) && Orderly(pairs)
    && Greedy(norm, hypr, live, pairs) && Maximal(norm, hypr, live, pairs, c)
  }

  lemma Taken(
    norm: string -> string, hypr: seq<Client>, live: seq<LiveWindow>, pairs: seq<Pair>, c: nat,
    unused: seq<LiveWindow>, slots: seq<int>, idx: nat)
    requires c < |hypr| && Matched(norm, hypr, live, pairs, c) && Unused(live, Lives(pairs), unused, slots)
    requires LastBest(norm, hypr[c], unused, idx)
    ensures Matched(norm, hypr, live, pairs + [Pair(c, slots[idx])], c + 1)
    ensures Unused(live, Lives(pairs + [Pair(c, slots[idx])]), Without(unused, idx), Without(slots, idx))
  {
    var p := Pair(c, slots[idx]);
    BestIsBestOfUnused(norm, hypr[c], live, Lives(pairs), unused, slots, idx);
    ExtendOrderly(pairs, p, |live|);
    ExtendGreedy(norm, hypr, live, pairs, p);
    ExtendMaximal(norm, hypr, live, pairs, p);
    UnusedRemove(live, Lives(pairs), unused, slots, idx);
    PairsSnoc(pairs, p);
  }

  lemma OutExtends(
    hypr: seq<Client>, live: seq<LiveWindow>, pairs: seq<Pair>, out: seq<SessionWindow>, p: Pair)
    requires Written(hypr, live, pairs, out) && 0 <= p.client < |hypr| && 0 <= p.live < |live|
    ensures Written(hypr, live, pairs + [p], out + [SessionWindowFromLive(hypr[p.client].workspace, live[p.live])])
  {}

  /** The saved windows are those of the pairs, on the client's workspace. */
  ghost predicate Written(hypr: seq<Client>, live: seq<LiveWindow>, pairs: seq<Pair>, out: seq<SessionWindow>) {
    |out| == |pairs| && forall a | 0 <= a < |pairs| ::
      && 0 <= pairs[a].client < |hypr| && 0 <= pairs[a].live < |live|
      && out[a] == SessionWindowFromLive(hypr[pairs[a].client].workspace, live[pairs[a].live])
  }

  /** Some greedy and maximal pairing gives exactly these saved windows. */
  ghost predicate Assigned(
    norm: string -> string, hypr: seq<Client>, live: seq<LiveWindow>, out: seq<SessionWindow>)
  {
    exists pairs :: Matched(norm, hypr, live, pairs, |hypr|) && Written(hypr, live, pairs, out)
  }

  method AssignSessionWindows(norm: string -> string, hypr: seq<Client>, live: seq<LiveWindow>)
    returns (out: seq<SessionWindow>)
    ensures Assigned(norm, hypr, live, out)
  {
    var unused := live;
    ghost var slots := seq(|live|, i => i);
    forall j | 0 <= j < |live|
      ensures j in slots
    {
      assert slots[j] == j;
    }
    out := [];
    ghost var pairs: seq<Pair> := [];
    for c := 0 to |hypr|
      invariant Matched(norm, hypr, live, pairs, c) && Written(hypr, live, pairs, out)
      invariant Unused(live, Lives(pairs), unused, slots)
    {
      var best := BestLiveMatch(norm, hypr[c], unused);
      if best.Some? {
        var idx := best.value;
        Taken(norm, hypr, live, pairs, c, unused, slots, idx);
        OutExtends(hypr, live, pairs, out, Pair(c, slots[idx]));
        out := out + [SessionWindowFromLive(hypr[c].workspace, unused[idx])];
        pairs := pairs + [Pair(c, slots[idx])];
        unused := Without(unused, idx);
        slots := Without(slots, idx);
      } else {
        NoneLeft(norm, hypr, live, pairs, c, unused, slots);
      }
    }
  }
}
