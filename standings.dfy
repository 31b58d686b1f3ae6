/** The standings of a chat: its tally entries ranked by count, highest
    first, with ties left in insertion order (`sorted(..., reverse=True)` is
    stable), and the two texts that show them: the "today" view that
    `/clown` replays once the day's clown is chosen (at most ten lines) and
    the full view of `/clownstats`. */
module Standings {
  import opened Tally
  import Decimal

  /** Counts never increase along the sequence. */
  ghost predicate NonIncreasing(s: Table) {
    forall i, j :: 0 <= i < j < |s| ==> s[i].entry.count >= s[j].entry.count
  }

  /** The items of `s` whose count is `c`, in their order in `s`. */
  function WithCount(s: Table, c: nat): Table {
    if s == [] then [] else (if s[0].entry.count == c then [s[0]] else []) + WithCount(s[1..], c)
  }

  lemma {:induction false} WithCountMembership(s: Table, c: nat, x: Item)
    ensures x in WithCount(s, c) <==> x in s && x.entry.count == c
    decreases |s|
  {
    if s != [] {
      WithCountMembership(s[1..], c, x);
      assert s == [s[0]] + s[1..];
    }
  }

  /** Inserts `x` before the first item whose count is not higher, so that
      `x` stays ahead of the items of equal count that follow it. */
  function Insert(x: Item, r: Table): (res: Table)
    ensures |res| == |r| + 1
  {
    if r == [] then [x]
    else if r[0].entry.count <= x.entry.count then [x] + r
    else [r[0]] + Insert(x, r[1..])
  }

  /** The order of `sorted(items, key=count, reverse=True)`. */
  function Rank(t: Table): (r: Table)
    ensures |r| == |t|
  {
    if t == [] then [] else Insert(t[0], Rank(t[1..]))
  }

  lemma {:induction false} InsertPermutation(x: Item, r: Table)
    ensures multiset(Insert(x, r)) == multiset(r) + multiset{x}
    decreases |r|
  {
    if r != [] && r[0].entry.count > x.entry.count {
      InsertPermutation(x, r[1..]);
      assert r == [r[0]] + r[1..];
    }
  }

  /** The ranking is a permutation of the chat's entries. */
  lemma {:induction false} RankPermutation(t: Table)
    ensures multiset(Rank(t)) == multiset(t)
    decreases |t|
  {
    if t != [] {
      RankPermutation(t[1..]);
      InsertPermutation(t[0], Rank(t[1..]));
      assert t == [t[0]] + t[1..];
    }
  }

  lemma {:induction false} InsertBound(x: Item, r: Table, c: nat)
    requires x.entry.count <= c
    requires forall i :: 0 <= i < |r| ==> r[i].entry.count <= c
    ensures forall i :: 0 <= i < |Insert(x, r)| ==> Insert(x, r)[i].entry.count <= c
    decreases |r|
  {
    if r != [] && r[0].entry.count > x.entry.count {
      InsertBound(x, r[1..], c);
      var rest := Insert(x, r[1..]);
      assert Insert(x, r) == [r[0]] + rest;
      forall i | 0 <= i < |Insert(x, r)| ensures Insert(x, r)[i].entry.count <= c {
        if i > 0 {
          assert Insert(x, r)[i] == rest[i - 1];
        }
      }
    }
  }

  lemma ConsSorted(h: Item, s: Table)
    requires NonIncreasing(s)
    requires forall j :: 0 <= j < |s| ==> s[j].entry.count <= h.entry.count
    ensures NonIncreasing([h] + s)
  {
    var r := [h] + s;
    forall i, j | 0 <= i < j < |r| ensures r[i].entry.count >= r[j].entry.count {
      assert r[j] == s[j - 1];
      if i > 0 {
        assert r[i] == s[i - 1];
      }
    }
  }

  lemma {:induction false} InsertSorted(x: Item, r: Table)
    requires NonIncreasing(r)
    ensures NonIncreasing(Insert(x, r))
    decreases |r|
  {
    if r == [] {
    } else if r[0].entry.count <= x.entry.count {
      ConsSorted(x, r);
    } else {
      var tail := r[1..];
      assert NonIncreasing(tail) by {
        forall i, j | 0 <= i < j < |tail| ensures tail[i].entry.count >= tail[j].entry.count {
          assert tail[i] == r[i + 1] && tail[j] == r[j + 1];
        }
      }
      forall j | 0 <= j < |tail| ensures tail[j].entry.count <= r[0].entry.count {
        assert tail[j] == r[j + 1];
      }
      InsertSorted(x, tail);
      InsertBound(x, tail, r[0].entry.count);
      ConsSorted(r[0], Insert(x, tail));
    }
  }

  lemma WithCountCons(x: Item, s: Table, c: nat)
    ensures WithCount([x] + s, c) == (if x.entry.count == c then [x] else []) + WithCount(s, c)
  {
    assert ([x] + s)[1..] == s;
  }

  lemma {:induction false} InsertWithCount(x: Item, r: Table, c: nat)
    ensures WithCount(Insert(x, r), c) == (if x.entry.count == c then [x] else []) + WithCount(r, c)
    decreases |r|
  {
    if r == [] {
      WithCountCons(x, [], c);
    } else if r[0].entry.count <= x.entry.count {
      WithCountCons(x, r, c);
    } else {
      var own := if x.entry.count == c then [x] else [];
      var head := if r[0].entry.count == c then [r[0]] else [];
      InsertWithCount(x, r[1..], c);
      WithCountCons(r[0], Insert(x, r[1..]), c);
      WithCountCons(r[0], r[1..], c);
      calc {
        WithCount(Insert(x, r), c);
        WithCount([r[0]] + Insert(x, r[1..]), c);
        head + (own + WithCount(r[1..], c));
        { assert head == [] || own == []; }
        own + (head + WithCount(r[1..], c));
        { assert r == [r[0]] + r[1..]; }
        own + WithCount(r, c);
      }
    }
  }

  /** The ranking is sorted by count, highest first. */
  lemma {:induction false} RankSorted(t: Table)
    ensures NonIncreasing(Rank(t))
    decreases |t|
  {
    if t != [] {
      RankSorted(t[1..]);
      InsertSorted(t[0], Rank(t[1..]));
    }
  }

  /** The ranking is stable: the items of any one count appear in it in
      their insertion order. */
  lemma {:induction false} RankStable(t: Table, c: nat)
    ensures WithCount(Rank(t), c) == WithCount(t, c)
    decreases |t|
  {
    if t != [] {
      RankStable(t[1..], c);
      InsertWithCount(t[0], Rank(t[1..]), c);
    }
  }

  lemma FirstIsMax(a: Table, x: Item)
    requires NonIncreasing(a) && x in a
    ensures a[0].entry.count >= x.entry.count
  {
    var i :| 0 <= i < |a| && a[i] == x;
    if i > 0 {
      assert a[0].entry.count >= a[i].entry.count;
    }
  }

  lemma InBoth(a: Table, b: Table, x: Item)
    requires forall c :: WithCount(a, c) == WithCount(b, c)
    requires x in b
    ensures x in a
  {
    WithCountMembership(b, x.entry.count, x);
    assert WithCount(a, x.entry.count) == WithCount(b, x.entry.count);
    WithCountMembership(a, x.entry.count, x);
  }

  lemma TailFilters(a: Table, b: Table, d: nat)
    requires a != [] && b != [] && a[0] == b[0]
    requires WithCount(a, d) == WithCount(b, d)
    ensures WithCount(a[1..], d) == WithCount(b[1..], d)
  {
    var h := if a[0].entry.count == d then [a[0]] else [];
    assert WithCount(a, d) == h + WithCount(a[1..], d);
    assert WithCount(b, d) == h + WithCount(b[1..], d);
    assert (h + WithCount(a[1..], d))[|h|..] == WithCount(a[1..], d);
    assert (h + WithCount(b[1..], d))[|h|..] == WithCount(b[1..], d);
  }

  /** Sortedness and stability determine the order completely: two sorted
      sequences with the same items of every count are equal. */
  lemma {:induction false} SortedStableUnique(a: Table, b: Table)
    requires NonIncreasing(a) && NonIncreasing(b)
    requires forall c :: WithCount(a, c) == WithCount(b, c)
    ensures a == b
    decreases |a| + |b|
  {
    if a != [] && b != [] {
      InBoth(a, b, b[0]);
      InBoth(b, a, a[0]);
      FirstIsMax(a, b[0]);
      FirstIsMax(b, a[0]);
      var c := a[0].entry.count;
      assert WithCount(a, c)[0] == a[0];
      assert WithCount(b, c)[0] == b[0];
      assert WithCount(a, c) == WithCount(b, c);
      forall d ensures WithCount(a[1..], d) == WithCount(b[1..], d) {
        assert WithCount(a, d) == WithCount(b, d);
        TailFilters(a, b, d);
      }
      SortedStableUnique(a[1..], b[1..]);
      assert a == [a[0]] + a[1..] && b == [b[0]] + b[1..];
    } else if a != [] {
      InBoth(b, a, a[0]);
    } else if b != [] {
      InBoth(a, b, b[0]);
    }
  }

  /** Any stable sort of `t` by count, highest first, is `Rank(t)`. */
  lemma RankIsTheStableSort(t: Table, s: Table)
    requires NonIncreasing(s) && forall c :: WithCount(s, c) == WithCount(t, c)
    ensures s == Rank(t)
  {
    RankSorted(t);
    forall c ensures WithCount(s, c) == WithCount(Rank(t), c) {
      RankStable(t, c);
    }
    SortedStableUnique(s, Rank(t));
  }

  /** The "today" view shows at most this many entries. */
  const TodayLimit: nat := 10

  function Min(a: nat, b: nat): nat { if a <= b then a else b }

  /** The first ten entries of the ranking (main.py:173). */
  function TodayRanking(t: Table): Table {
    Rank(t)[..Min(TodayLimit, |t|)]
  }

  /** The today view is the first `min(10, n)` entries of the full ranking,
      and none of the entries it leaves out has a higher count than one it
      shows. */
  lemma TodayIsTopOfFull(t: Table)
    ensures |TodayRanking(t)| == Min(TodayLimit, |t|)
    ensures TodayRanking(t) == Rank(t)[..|TodayRanking(t)|]
    ensures |t| <= TodayLimit ==> TodayRanking(t) == Rank(t)
    ensures forall i, j :: 0 <= i < |TodayRanking(t)| <= j < |t| ==>
              TodayRanking(t)[i].entry.count >= Rank(t)[j].entry.count
  {
    RankSorted(t);
  }

  /** The label of an entry: "@username" when it has a username, its name
      otherwise. */
  function Label(e: Entry): string {
    if e.username != "" then "@" + e.username else e.name
  }

  /** One standings line: position, name, label in parentheses, and count
      (main.py:175, 197). */
  function Line(position: nat, e: Entry): string {
    Decimal.NatToString(position) + ". " + e.name + " (" + Label(e) + ") - "
      + Decimal.NatToString(e.count) + " раз(а)\n"
  }

  /** The lines for `s`, numbered from 1. */
  function Body(s: Table): string {
    if s == [] then "" else Body(s[..|s| - 1]) + Line(|s|, s[|s| - 1].entry)
  }

  function Render(header: string, ranked: Table): string {
    header + Body(ranked)
  }

  /** The lines of a prefix of the entries are a prefix of the lines of all
      of them. */
  lemma {:induction false} BodyPrefix(s: Table, k: nat)
    requires k <= |s|
    ensures Body(s[..k]) <= Body(s)
    decreases |s| - k
  {
    if k < |s| {
      var s' := s[..|s| - 1];
      assert s'[..k] == s[..k];
      BodyPrefix(s', k);
    } else {
      assert s[..k] == s;
    }
  }

  function Newlines(s: string): nat {
    if s == [] then 0 else (if s[0] == '\n' then 1 else 0) + Newlines(s[1..])
  }

  lemma {:induction false} NewlinesAppend(a: string, b: string)
    ensures Newlines(a + b) == Newlines(a) + Newlines(b)
    decreases |a|
  {
    if a == [] {
      assert a + b == b;
    } else {
      assert (a + b)[0] == a[0];
      assert (a + b)[1..] == a[1..] + b;
      NewlinesAppend(a[1..], b);
    }
  }

  lemma {:induction false} NoNewlines(s: string)
    requires forall i :: 0 <= i < |s| ==> s[i] != '\n'
    ensures Newlines(s) == 0
    decreases |s|
  {
    if s != [] {
      NoNewlines(s[1..]);
    }
  }

  ghost predicate SingleLine(s: string) {
    forall i :: 0 <= i < |s| ==> s[i] != '\n'
  }

  lemma LineIsOneLine(position: nat, e: Entry)
    requires SingleLine(e.name) && SingleLine(e.username)
    ensures Newlines(Line(position, e)) == 1
  {
    var p := Decimal.NatToString(position);
    var n := Decimal.NatToString(e.count);
    var l := Label(e);
    assert SingleLine(l) by {
      if e.username != "" {
        assert forall i :: 1 <= i < |l| ==> l[i] == e.username[i - 1];
      }
    }
    var front := p + ". " + e.name + " (" + l + ") - " + n + " раз(а)";
    assert SingleLine(front) by {
      assert forall i :: 0 <= i < |p| ==> Decimal.IsDigit(p[i]);
      assert forall i :: 0 <= i < |n| ==> Decimal.IsDigit(n[i]);
    }
    NoNewlines(front);
    assert Line(position, e) == front + "\n";
    NewlinesAppend(front, "\n");
  }

  /** When no name or username spans lines, the standings have exactly one
      line per entry. */
  lemma {:induction false} BodyLineCount(s: Table)
    requires forall i :: 0 <= i < |s| ==> SingleLine(s[i].entry.name) && SingleLine(s[i].entry.username)
    ensures Newlines(Body(s)) == |s|
    decreases |s|
  {
    if s != [] {
      BodyLineCount(s[..|s| - 1]);
      LineIsOneLine(|s|, s[|s| - 1].entry);
      NewlinesAppend(Body(s[..|s| - 1]), Line(|s|, s[|s| - 1].entry));
    }
  }

  /** The lines of a prefix one longer end with the next numbered line. */
  lemma BodySnoc(ranked: Table, i: nat)
    requires i < |ranked|
    ensures Body(ranked[..i + 1]) == Body(ranked[..i]) + Line(i + 1, ranked[i].entry)
  {
    assert ranked[..i + 1][..i] == ranked[..i];
  }

  /** One iteration of the rendering loop: appending the next numbered line
      to the rendering of a prefix renders the prefix one longer. */
  lemma RenderStep(header: string, ranked: Table, i: nat, response: string)
    requires i < |ranked| && response == header + Body(ranked[..i])
    ensures response + Line(i + 1, ranked[i].entry) == header + Body(ranked[..i + 1])
  {
    BodySnoc(ranked, i);
    AppendAssoc(header, Body(ranked[..i]), Line(i + 1, ranked[i].entry));
  }

  /** Regrouping a concatenation, stated on bare strings so that the step is
      taken apart from the definitions of the lines. */
  lemma AppendAssoc(a: string, b: string, c: string)
    ensures a + (b + c) == (a + b) + c
  {
  }

  /** The loop that appends one numbered line per ranked entry to the
      header (main.py:173-175, 195-197). */
  method RenderStandings(header: string, ranked: Table) returns (response: string)
    ensures response == Render(header, ranked)
  {
    response := header;
    var i := 0;
    while i < |ranked|
      invariant 0 <= i <= |ranked|
      invariant response == header + Body(ranked[..i])
    {
      var line := Line(i + 1, ranked[i].entry);
      RenderStep(header, ranked, i, response);
      response := response + line;
      i := i + 1;
    }
    assert ranked[..i] == ranked;
  }

  const TodayHeader := "📊 " + "Сегодняшний клоун уже выбран!\n\nСтатистика за все время:\n"
  const TodayEmpty := "Статистика пока пуста!"
  const FullHeader := "🏆 " + "Полная статистика клоунов:\n\n"
  const FullEmpty := TodayEmpty + " Используйте /clown"

  /** The chat has a non-empty tally (main.py:164, 186). */
  predicate HasEntries(stats: map<string, Table>, chat: string) {
    chat in stats && stats[chat] != []
  }

  /** The reply of `show_today_stats`. */
  function TodayText(stats: map<string, Table>, chat: string): string {
    if HasEntries(stats, chat) then Render(TodayHeader, TodayRanking(stats[chat])) else TodayEmpty
  }

  /** The reply of `/clownstats`. */
  function FullText(stats: map<string, Table>, chat: string): string {
    if HasEntries(stats, chat) then Render(FullHeader, Rank(stats[chat])) else FullEmpty
  }

  /** Each view gives its "empty" message exactly when the chat has no
      entries. */
  lemma EmptyMessageIffNoEntries(stats: map<string, Table>, chat: string)
    ensures TodayText(stats, chat) == TodayEmpty <==> !HasEntries(stats, chat)
    ensures FullText(stats, chat) == FullEmpty <==> !HasEntries(stats, chat)
  {
    if HasEntries(stats, chat) {
      var today := TodayText(stats, chat);
      var full := FullText(stats, chat);
      assert today == TodayHeader + Body(TodayRanking(stats[chat]));
      assert today[0] == TodayHeader[0] == '📊';
      assert TodayEmpty[0] == 'С';
      assert full == FullHeader + Body(Rank(stats[chat]));
      assert full[0] == FullHeader[0] == '🏆';
      assert FullEmpty[0] == 'С';
    }
  }

  /** Under their headers, the lines of the today view are the first lines
      of the full view; with ten entries or fewer they are all of them. */
  lemma TodayLinesPrefixFullLines(stats: map<string, Table>, chat: string)
    requires HasEntries(stats, chat)
    ensures exists today, full ::
      && TodayText(stats, chat) == TodayHeader + today
      && FullText(stats, chat) == FullHeader + full
      && today <= full
      && (|stats[chat]| <= TodayLimit ==> today == full)
  {
    var t := stats[chat];
    TodayIsTopOfFull(t);
    BodyPrefix(Rank(t), |TodayRanking(t)|);
    assert TodayText(stats, chat) == TodayHeader + Body(TodayRanking(t));
    assert FullText(stats, chat) == FullHeader + Body(Rank(t));
  }
}
