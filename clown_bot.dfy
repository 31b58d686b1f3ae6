/** The `/clown`, `/clownstats` state machine of main.py.  The bot keeps two
    documents: `lastUsed`, the date of each chat's last selection, and
    `stats`, each chat's tally.  A `/clown` in a chat whose marker already
    holds today's date replays the standings; otherwise one non-bot
    administrator is chosen, that member's count goes up by one and the
    marker is set to today. */
module ClownBot {
  import opened Members
  import opened Tally
  import opened Standings
  import Decimal

  datatype BotState = BotState(lastUsed: map<string, string>, stats: map<string, Table>)

  /** What `/clown` answers. */
  datatype Reply =
    | AlreadyChosen(text: string)          // the standings, from `show_today_stats`
    | NoMembers(text: string)              // the members list came back empty
    | Chosen(winner: Member, text: string) // the result message naming the winner

  const NoMembersText := "Не удалось получить список участников чата! 😢"

  /** The tally key of a member: its id in decimal (main.py:141). */
  function UserKey(id: int): string {
    Decimal.IntToString(id)
  }

  /** Members with different ids never share a tally entry. */
  lemma UserKeyInjective(i: int, j: int)
    ensures UserKey(i) == UserKey(j) <==> i == j
  {
    Decimal.IntToStringInjective(i, j);
  }

  /** The label in the result message: "@username" when the member has a
      non-empty username, the first name otherwise. */
  function MemberLabel(m: Member): string {
    if m.username.Some? && m.username.value != "" then "@" + m.username.value else m.firstName
  }

  function ResultText(m: Member): string {
    "Клоун дня: " + m.firstName + " (" + MemberLabel(m) + ")"
  }

  /** The `{name, username, count}` an entry starts with; a missing
      username is stored as the empty string. */
  function NewEntry(m: Member): Entry {
    Entry(m.firstName, OrElse(m.username, ""), 0)
  }

  /** The label the standings show for an entry created from a member is the
      label the result message gave that member. */
  lemma LabelsAgree(m: Member, count: nat)
    ensures Label(NewEntry(m).(count := count)) == MemberLabel(m)
  {
  }

  function TableOf(stats: map<string, Table>, chat: string): Table {
    if chat in stats then stats[chat] else []
  }

  /** The chat's marker holds today's date (main.py:88). */
  predicate ChosenToday(s: BotState, chat: string, today: string) {
    chat in s.lastUsed && s.lastUsed[chat] == today
  }

  /** The random pick is an index into the members list. */
  predicate PickFits(admins: seq<User>, pick: nat) {
    NonBotMembers(admins) != [] ==> pick < |NonBotMembers(admins)|
  }

  /** The state after `winner` is chosen in `chat` on `today`. */
  function Win(s: BotState, chat: string, today: string, winner: Member): BotState {
    var e := NewEntry(winner);
    BotState(s.lastUsed[chat := today],
             s.stats[chat := Record(TableOf(s.stats, chat), UserKey(winner.id), e.name, e.username)])
  }

  /** One `/clown` in `chat` on the date `today`, where `admins` is what the
      platform reports as the chat's administrators and `pick` stands for
      `random.choice`. */
  function ClownStep(s: BotState, chat: string, today: string, admins: seq<User>, pick: nat): (r: (BotState, Reply))
    requires PickFits(admins, pick)
    // the day gate
    ensures r.1.AlreadyChosen? <==> ChosenToday(s, chat, today)
    ensures ChosenToday(s, chat, today) ==> r.1.text == TodayText(s.stats, chat)
    // the empty members list
    ensures r.1.NoMembers? <==> !ChosenToday(s, chat, today) && NonBotMembers(admins) == []
    ensures r.1.NoMembers? ==> r.1.text == NoMembersText
    // nothing changes unless a winner is chosen
    ensures !r.1.Chosen? ==> r.0 == s
    // the winner is one of the members, the record of a non-bot administrator
    ensures r.1.Chosen? ==> r.1.winner == NonBotMembers(admins)[pick]
    ensures r.1.Chosen? ==> exists i :: 0 <= i < |admins| && !admins[i].isBot && ToMember(admins[i]) == r.1.winner
    ensures r.1.Chosen? ==> r.1.text == ResultText(r.1.winner)
    // the marker of this chat is set to today, no other marker changes
    ensures r.1.Chosen? ==> r.0.lastUsed == s.lastUsed[chat := today]
    // the tally of no other chat changes
    ensures r.1.Chosen? ==> r.0.stats.Keys == s.stats.Keys + {chat}
    ensures r.1.Chosen? ==> forall c :: c in s.stats && c != chat ==> r.0.stats[c] == s.stats[c]
  {
    if ChosenToday(s, chat, today) then
      (s, AlreadyChosen(TodayText(s.stats, chat)))
    else
      var members := NonBotMembers(admins);
      if members == [] then
        (s, NoMembers(NoMembersText))
      else
        var winner := members[pick];
        NonBotMembersMembership(admins, winner);
        (Win(s, chat, today, winner), Chosen(winner, ResultText(winner)))
  }

  /** The step when the gate is open and the members list is not empty. */
  lemma ChosenStep(s: BotState, chat: string, today: string, admins: seq<User>, pick: nat)
    requires PickFits(admins, pick)
    requires !ChosenToday(s, chat, today) && NonBotMembers(admins) != []
    ensures var winner := NonBotMembers(admins)[pick];
      ClownStep(s, chat, today, admins, pick) == (Win(s, chat, today, winner), Chosen(winner, ResultText(winner)))
  {
  }

  /** After a selection the winner's entry has a count one higher than
      before (a new entry ends at 1 with the winner's name and username),
      an existing entry keeps its name and username, and no other key of
      the chat's tally changes. */
  lemma ChosenTally(s: BotState, chat: string, today: string, admins: seq<User>, pick: nat, k: string)
    requires PickFits(admins, pick)
    requires ClownStep(s, chat, today, admins, pick).1.Chosen?
    ensures var (s', reply) := ClownStep(s, chat, today, admins, pick);
      var before, after, key := TableOf(s.stats, chat), TableOf(s'.stats, chat), UserKey(reply.winner.id);
      && Has(after, key)
      && (Has(before, key) ==> Get(after, key) == Get(before, key).(count := Get(before, key).count + 1))
      && (!Has(before, key) ==> Get(after, key) == NewEntry(reply.winner).(count := 1))
      && (k != key ==> Has(after, k) == Has(before, k) && (Has(before, k) ==> Get(after, k) == Get(before, k)))
  {
  }

  /** Once a winner is chosen, every further `/clown` on the same date hits
      the gate: the tally is idempotent within a day. */
  lemma IdempotentWithinDay(s: BotState, chat: string, today: string, admins: seq<User>, pick: nat,
                            admins': seq<User>, pick': nat)
    requires PickFits(admins, pick) && PickFits(admins', pick')
    requires ClownStep(s, chat, today, admins, pick).1.Chosen?
    ensures var s' := ClownStep(s, chat, today, admins, pick).0;
      ClownStep(s', chat, today, admins', pick') == (s', AlreadyChosen(TodayText(s'.stats, chat)))
  {
  }

  /** A step adds one to the chat's total count when it chooses a winner and
      nothing otherwise; other chats' totals are unchanged. */
  lemma StepSum(s: BotState, chat: string, today: string, admins: seq<User>, pick: nat, c: string)
    requires PickFits(admins, pick)
    ensures var (s', reply) := ClownStep(s, chat, today, admins, pick);
      Sum(TableOf(s'.stats, c)) == Sum(TableOf(s.stats, c)) + (if reply.Chosen? && c == chat then 1 else 0)
  {
    var (s', reply) := ClownStep(s, chat, today, admins, pick);
    if reply.Chosen? && c == chat {
      var e := NewEntry(reply.winner);
      RecordSum(TableOf(s.stats, chat), UserKey(reply.winner.id), e.name, e.username);
    }
  }

  /** Every chat's tally holds each key once. */
  ghost predicate Valid(s: BotState) {
    forall c :: c in s.stats ==> UniqueKeys(s.stats[c])
  }

  /** Recording a win keeps every chat's keys unique. */
  lemma WinValid(s: BotState, chat: string, today: string, winner: Member)
    requires Valid(s)
    ensures Valid(Win(s, chat, today, winner))
  {
    var t := TableOf(s.stats, chat);
    assert UniqueKeys(t) by {
      if chat in s.stats {
        assert t == s.stats[chat];
      }
    }
    var e := NewEntry(winner);
    RecordUnique(t, UserKey(winner.id), e.name, e.username);
    var s' := Win(s, chat, today, winner);
    forall c | c in s'.stats ensures UniqueKeys(s'.stats[c]) {
      if c != chat {
        assert s'.stats[c] == s.stats[c];
      }
    }
  }

  lemma StepValid(s: BotState, chat: string, today: string, admins: seq<User>, pick: nat)
    requires PickFits(admins, pick) && Valid(s)
    ensures Valid(ClownStep(s, chat, today, admins, pick).0)
  {
    if !ChosenToday(s, chat, today) && NonBotMembers(admins) != [] {
      ChosenStep(s, chat, today, admins, pick);
      WinValid(s, chat, today, NonBotMembers(admins)[pick]);
    }
  }

  /** A `/clown` command as the chat sends it. */
  datatype Command = Command(today: string, admins: seq<User>, pick: nat)

  predicate PicksFit(cmds: seq<Command>) {
    forall i :: 0 <= i < |cmds| ==> PickFits(cmds[i].admins, cmds[i].pick)
  }

  /** Runs a sequence of `/clown` commands in one chat, in order. */
  function Run(s: BotState, chat: string, cmds: seq<Command>): (BotState, seq<Reply>)
    requires PicksFit(cmds)
    decreases |cmds|
  {
    if cmds == [] then (s, [])
    else
      var (s1, reply) := ClownStep(s, chat, cmds[0].today, cmds[0].admins, cmds[0].pick);
      var (s2, replies) := Run(s1, chat, cmds[1..]);
      (s2, [reply] + replies)
  }

  /** The number of replies that chose a winner. */
  function Wins(replies: seq<Reply>): nat {
    if replies == [] then 0 else (if replies[0].Chosen? then 1 else 0) + Wins(replies[1..])
  }

  /** Over any run, the chat's total count grows by exactly the number of
      winners chosen. */
  lemma {:induction false} RunSum(s: BotState, chat: string, cmds: seq<Command>)
    requires PicksFit(cmds)
    ensures Sum(TableOf(Run(s, chat, cmds).0.stats, chat)) == Sum(TableOf(s.stats, chat)) + Wins(Run(s, chat, cmds).1)
    decreases |cmds|
  {
    if cmds != [] {
      var (s1, reply) := ClownStep(s, chat, cmds[0].today, cmds[0].admins, cmds[0].pick);
      StepSum(s, chat, cmds[0].today, cmds[0].admins, cmds[0].pick, chat);
      RunSum(s1, chat, cmds[1..]);
    }
  }

  /** Commands that are all on one date choose at most one winner, and none
      at all when the chat's clown was already chosen that day. */
  lemma {:induction false} RunOneDay(s: BotState, chat: string, today: string, cmds: seq<Command>)
    requires PicksFit(cmds)
    requires forall i :: 0 <= i < |cmds| ==> cmds[i].today == today
    ensures Wins(Run(s, chat, cmds).1) <= 1
    ensures ChosenToday(s, chat, today) ==> Wins(Run(s, chat, cmds).1) == 0 && Run(s, chat, cmds).0 == s
    decreases |cmds|
  {
    if cmds != [] {
      var (s1, reply) := ClownStep(s, chat, today, cmds[0].admins, cmds[0].pick);
      RunOneDay(s1, chat, today, cmds[1..]);
    }
  }

  const ScenarioAdmins := [User(1, false, Some("A"), Some("a")), User(2, false, Some("B"), Some("b")),
                           User(3, false, Some("C"), None)]

  lemma ScenarioMembers()
    ensures |NonBotMembers(ScenarioAdmins)| == 3
    ensures NonBotMembers(ScenarioAdmins)[0] == Member(1, "A", Some("a"))
  {
    var admins := ScenarioAdmins;
    NonBotMembersLength(admins);
    var first := [admins[0]];
    assert first[..0] == [];
    assert NonBotMembers(first) == [Member(1, "A", Some("a"))];
    assert admins == first + admins[1..];
    NonBotMembersAppend(first, admins[1..]);
  }

  /** Three members and an empty store: the first `/clown` on D1 gives the
      first member a count of 1 and sets the marker to D1. */
  lemma ScenarioFirstDay()
    ensures PickFits(ScenarioAdmins, 0)
    ensures ClownStep(BotState(map[], map[]), "chat", "D1", ScenarioAdmins, 0).0
         == BotState(map["chat" := "D1"], map["chat" := [Item("1", Entry("A", "a", 1))]])
  {
    ScenarioMembers();
    var m := Member(1, "A", Some("a"));
    assert UserKey(1) == "1";
    assert NewEntry(m) == Entry("A", "a", 0);
    assert Record([], "1", "A", "a") == [Item("1", Entry("A", "a", 1))] by {
      assert !Has([], "1");
    }
    var s0 := BotState(map[], map[]);
    assert Win(s0, "chat", "D1", m) == BotState(map["chat" := "D1"], map["chat" := [Item("1", Entry("A", "a", 1))]]);
    ChosenStep(s0, "chat", "D1", ScenarioAdmins, 0);
  }

  /** A second `/clown` on D1, whoever would be picked, changes nothing. */
  lemma ScenarioSameDay()
    ensures PickFits(ScenarioAdmins, 2)
    ensures var s1 := BotState(map["chat" := "D1"], map["chat" := [Item("1", Entry("A", "a", 1))]]);
      ClownStep(s1, "chat", "D1", ScenarioAdmins, 2) == (s1, AlreadyChosen(TodayText(s1.stats, "chat")))
  {
    ScenarioMembers();
  }

  /** Picking the same member on D2 makes its count 2. */
  lemma ScenarioNextDay()
    ensures PickFits(ScenarioAdmins, 0)
    ensures ClownStep(BotState(map["chat" := "D1"], map["chat" := [Item("1", Entry("A", "a", 1))]]),
                      "chat", "D2", ScenarioAdmins, 0).0
         == BotState(map["chat" := "D2"], map["chat" := [Item("1", Entry("A", "a", 2))]])
  {
    ScenarioMembers();
    var m := Member(1, "A", Some("a"));
    assert UserKey(1) == "1";
    assert NewEntry(m) == Entry("A", "a", 0);
    var t := [Item("1", Entry("A", "a", 1))];
    assert Record(t, "1", "A", "a") == [Item("1", Entry("A", "a", 2))] by {
      assert IndexOf(t, "1") == 0;
      assert Keys(Record(t, "1", "A", "a")) == ["1"];
      assert IndexOf(Record(t, "1", "A", "a"), "1") == 0;
    }
    var s1 := BotState(map["chat" := "D1"], map["chat" := t]);
    assert Win(s1, "chat", "D2", m) == BotState(map["chat" := "D2"], map["chat" := [Item("1", Entry("A", "a", 2))]]);
    ChosenStep(s1, "chat", "D2", ScenarioAdmins, 0);
  }

  /** The bot's two documents, held in memory (a missing file loads as an
      empty map). */
  class Bot {
    var lastUsed: map<string, string>
    var stats: map<string, Table>

    constructor (lastUsed: map<string, string>, stats: map<string, Table>)
      requires Valid(BotState(lastUsed, stats))
      ensures this.lastUsed == lastUsed && this.stats == stats
      ensures Valid(State())
    {
      this.lastUsed := lastUsed;
      this.stats := stats;
    }

    function State(): BotState
      reads this
    {
      BotState(lastUsed, stats)
    }

    /** `clown_command` */
    method Clown(chat: string, today: string, admins: seq<User>, pick: nat) returns (reply: Reply)
      requires PickFits(admins, pick) && Valid(State())
      modifies this
      ensures (State(), reply) == ClownStep(old(State()), chat, today, admins, pick)
      ensures Valid(State())
    {
      if chat in lastUsed && lastUsed[chat] == today {
        var text := ShowTodayStats(chat);
        return AlreadyChosen(text);
      }
      var members := ChatMembers(admins);
      if members == [] {
        return NoMembers(NoMembersText);
      }
      var winner := members[pick];
      reply := Chosen(winner, ResultText(winner));
      RecordWin(chat, today, winner);
      ChosenStep(old(State()), chat, today, admins, pick);
    }

    /** The tally and marker update of `clown_command`. */
    method RecordWin(chat: string, today: string, winner: Member)
      requires Valid(State())
      modifies this
      ensures State() == Win(old(State()), chat, today, winner)
      ensures Valid(State())
    {
      // a chat without a tally starts from an empty one
      var table := TableOf(stats, chat);
      var userKey := UserKey(winner.id);
      if !Has(table, userKey) {
        table := Put(table, userKey, NewEntry(winner));
      }
      var entry := Get(table, userKey);
      table := Put(table, userKey, entry.(count := entry.count + 1));
      stats := stats[chat := table];
      lastUsed := lastUsed[chat := today];
      WinValid(old(State()), chat, today, winner);
    }

    /** `show_today_stats` */
    method ShowTodayStats(chat: string) returns (text: string)
      ensures text == TodayText(stats, chat)
    {
      if chat in stats && stats[chat] != [] {
        var ranked := Rank(stats[chat]);
        text := RenderStandings(TodayHeader, ranked[..Min(TodayLimit, |ranked|)]);
      } else {
        text := TodayEmpty;
      }
    }

    /** `clownstats_command` */
    method ClownStats(chat: string) returns (text: string)
      ensures text == FullText(stats, chat)
    {
      if chat in stats && stats[chat] != [] {
        var ranked := Rank(stats[chat]);
        text := RenderStandings(FullHeader, ranked);
      } else {
        text := FullEmpty;
      }
    }
  }
}
