# Clown of the day — a Dafny model

This project models the core of a Telegram group bot (`main.py`). Once per calendar day and per chat, `/clown` names one member "clown of the day" and keeps a tally of how often each member has won. `/clownstats` shows the full standings.

The bot's state is two documents:

- `last_used` maps a chat id to the date of that chat's last selection.
- `stats` maps a chat id to a dictionary from member key (`str(id)`) to `{name, username, count}`.

The model has five modules:

- `Decimal` (`decimal.dfy`): `str(n)` for integers, with a parse function and the round trip that makes member keys injective.
- `Members` (`members.dfy`): the candidate list built in `get_chat_members`. Bot accounts are dropped. Each remaining administrator becomes `{id, first_name or "Unknown", username}`. The list is a pure function `NonBotMembers`, and the appending loop is the method `ChatMembers`, proved equal to it.
- `Tally` (`tally.dfy`): a chat's tally as an insertion-ordered dictionary. Python dictionaries keep insertion order, and JSON saving and loading keep it too. The order matters because it breaks ties in the standings. `Put` is `d[k] = v`. `Record` is the "create at 0 if absent, then `+= 1`" update of one win.
- `Standings` (`standings.dfy`): the stable ranking by count, highest first (`sorted(..., reverse=True)`). It also holds the today view capped at ten entries, the uncapped full view, the label `@username` or name, the line format, and the `response +=` loop `RenderStandings`.
- `ClownBot` (`clown_bot.dfy`): `ClownStep`, one `/clown` as a pure state transition, and the lemmas about it and about runs of commands. The class `Bot` holds the two documents as `map` fields. Its methods `Clown`, `RecordWin`, `ShowTodayStats` and `ClownStats` update or read them in place, and each is proved equal to its specification function.

Things the model takes as parameters:

- The date (`date.today()`) is the `today` argument.
- The administrator list (`bot.get_chat_administrators`) is the `admins` argument.
- `random.choice(members)` is a caller-supplied index `pick`, which must satisfy `pick < |members|` when there are members.

The code always keys tallies by `str(id)`: there is no fallback key derived from the handle. The model follows the code.

## Model

| member | source | states |
|---|---|---|
| `Decimal.NatToString` | main.py:175 | the count and position in a standings line are rendered as decimal digits, at least one, with no leading zero |
| `Decimal.ParseNatToString` | main.py:175 | reading the digits back gives the number: the rendering loses nothing |
| `Decimal.ParseIntToString` | main.py:141 | `str(id)` for any integer id, sign included, parses back to the id |
| `Decimal.IntToStringInjective` | main.py:141 | two ids render to the same string exactly when they are equal |
| `Decimal.IntToString` | main.py:141 | `str(id)`: a non-empty string that starts with "-" exactly for a negative id. Its round trip and injectivity are `ParseIntToString` and `IntToStringInjective` |
| `Members.ToMember` | main.py:57-61 | the stored record keeps the user's id and username. `first_name or "Unknown"`: the user's first name when present and non-empty, else "Unknown", so the stored name is never empty |
| `Members.NonBotMembers` | main.py:54-61 | the members list: the records of the non-bot administrators, in the administrator list's order. Its properties are `NonBotMembersAppend`, `NonBotMembersMembership` and `NonBotMembersLength`; `ChatMembers` computes it |
| `Members.NonBotMembersAppend` | main.py:54-61 | the filter distributes over concatenation of the administrator list, so it keeps the list's order |
| `Members.NonBotMembersMembership` | main.py:54-61 | a record is in the members list exactly when it is the record of some non-bot administrator (both directions) |
| `Members.NonBotMembersLength` | main.py:54-61 | the list is no longer than the administrator list; with no bots it has the same length; with only bots it is empty |
| `Members.ChatMembers` | main.py:50-61 | the appending loop returns exactly the filtered, mapped list |
| `Tally.IndexOf` | main.py:142 | the key's position is that of its first occurrence, or the table's length when the key is absent |
| `Tally.HasIff` | main.py:142 | `key in table` holds exactly when the key is among the table's keys |
| `Tally.Has` | main.py:142 | `key in d`, characterised by `HasIff` |
| `Tally.Get` | main.py:149 | `d[key]` for a present key: the entry at the key's position. What `Put` and `Record` leave there is stated by their contracts |
| `Tally.Put` | main.py:143-149 | `d[k] = v`: afterwards `d[k]` is `v`. An existing key keeps its position. A new key is appended. Every other key's presence and value are unchanged |
| `Tally.PutUnique` | main.py:143-149 | assignment never makes a key appear twice |
| `Tally.PutSum` | main.py:149 | assignment changes the total count by the new count minus the old one (0 for a new key) |
| `Tally.Record` | main.py:141-149 | after one win the winner's count is one higher. A new entry ends at 1 with the given name and username, appended last. An existing entry keeps its position, name and username. No other key is added, removed or changed |
| `Tally.RecordSum` | main.py:149 | one win adds exactly 1 to the table's total count |
| `Tally.RecordUnique` | main.py:142-149 | a win keeps every key unique |
| `Standings.Insert` | main.py:166-170 | one step of the stable descending sort: the item goes before the first item whose count is not higher. It adds one element; `InsertPermutation`, `InsertSorted` and `InsertWithCount` state what it does |
| `Standings.InsertWithCount` | main.py:166-170 | inserting an item keeps the items of every count in order, with the inserted one ahead of those of its count |
| `Standings.Rank` | main.py:166-170 | `sorted(d.items(), key=count, reverse=True)`, as insertion of each entry into the ranking of the later ones. It has the table's length; `RankPermutation`, `RankSorted`, `RankStable` and `RankIsTheStableSort` state that it is the stable sort |
| `Standings.InsertPermutation` | main.py:166-170 | one insertion step adds exactly the given item: the result is a permutation of the input plus that item |
| `Standings.RankPermutation` | main.py:166-170 | the ranking is a permutation of the chat's entries |
| `Standings.InsertSorted` | main.py:166-170 | inserting into a sorted sequence keeps it sorted by count, highest first |
| `Standings.RankSorted` | main.py:166-170 | the ranking is in non-increasing order of count |
| `Standings.RankStable` | main.py:166-170 | for every count, the entries with that count appear in insertion order (stable sort) |
| `Standings.SortedStableUnique` | main.py:166-170 | two sorted sequences with the same entries of every count are equal |
| `Standings.RankIsTheStableSort` | main.py:166-170 | any sequence that is sorted and stable with respect to the entries is the ranking: the order is fully determined |
| `Standings.WithCountMembership` | main.py:166-170 | an entry is among those of count c exactly when it is in the sequence with count c |
| `Standings.TodayRanking` | main.py:173 | `sorted_stats[:10]`, the first `min(10, n)` ranked entries; `TodayIsTopOfFull` states its properties |
| `Standings.TodayIsTopOfFull` | main.py:173 | the today view has `min(10, n)` entries and is a prefix of the full ranking, equal to it when n <= 10. No entry it leaves out has a higher count than one it shows |
| `Standings.Line` | main.py:175 | the f-string of one standings line: position, name, label in parentheses, count, " раз(а)" and a newline; `LineIsOneLine` states that it is one line |
| `Standings.Body` | main.py:172-175 | the lines of the ranked entries, the i-th numbered i as with `enumerate(..., 1)` (`BodySnoc`); `BodyPrefix` and `BodyLineCount` state its properties and `RenderStandings` computes it |
| `Standings.Render` | main.py:172-175 | the header followed by the numbered lines |
| `Standings.BodySnoc` | main.py:173-175 | the lines of the first i+1 entries are the lines of the first i followed by entry i's line, numbered i+1 |
| `Standings.BodyPrefix` | main.py:173-175 | the lines for a prefix of the ranking are a prefix of the lines for the whole ranking |
| `Standings.LineIsOneLine` | main.py:175 | when name and username contain no newline, a standings line contains exactly one newline |
| `Standings.BodyLineCount` | main.py:173-175 | under that condition the standings have exactly one line per entry |
| `Standings.RenderStandings` | main.py:172-175 | the `response +=` loop over `enumerate(..., 1)` yields the header followed by the numbered lines |
| `Standings.TodayText` | main.py:160-179 | the reply of `show_today_stats`: the today header and the top ten lines, or the empty message. Its properties are `EmptyMessageIffNoEntries` and `TodayLinesPrefixFullLines`; `Bot.ShowTodayStats` computes it |
| `Standings.FullText` | main.py:181-201 | the reply of `/clownstats`: the full header and every line, or the empty message with the `/clown` hint. Same lemmas as `TodayText`; `Bot.ClownStats` computes it |
| `Standings.EmptyMessageIffNoEntries` | main.py:164-179 | each view gives its "empty" message exactly when the chat has no tally entries (both directions) |
| `Standings.TodayLinesPrefixFullLines` | main.py:164-197 | below their headers, the today view's lines are the first lines of the full view's, and all of them when there are at most ten entries |
| `ClownBot.UserKeyInjective` | main.py:141 | members with different ids never share a tally entry |
| `ClownBot.UserKey` | main.py:141 | the tally key `f"{winner['id']}"`, which is `str(id)`; `UserKeyInjective` states that it is injective |
| `ClownBot.MemberLabel` | main.py:131 | the winner message's label; `LabelsAgree` ties it to the standings label |
| `ClownBot.ResultText` | main.py:132 | the winner message "Клоун дня: name (label)"; `ClownStep` states that a chosen winner gets it |
| `ClownBot.NewEntry` | main.py:143-147 | the entry created for a new winner: first name, username or "", count 0. `ChosenTally` states that it ends at 1 |
| `ClownBot.TableOf` | main.py:138-139 | a chat without a tally reads as an empty one |
| `ClownBot.ChosenToday` | main.py:88 | the day gate: the chat has a marker and it equals today |
| `ClownBot.Win` | main.py:137-154 | the state after a win: the winner recorded in the chat's tally and the marker set to today. `ChosenTally`, `StepSum` and `WinValid` state its properties; `Bot.RecordWin` computes it |
| `ClownBot.LabelsAgree` | main.py:131-147 | the winner message's label (`@username` when the username is non-empty, else the first name) equals the label the standings compute at lines 174 and 196 for the entry created from the winner, whose missing username is stored as "" |
| `ClownBot.ClownStep` | main.py:84-154 | If the chat's marker equals today, the reply is the today standings. If the filtered list is empty, the reply is the error message. Neither case changes any state. Otherwise the winner is `members[pick]`, the record of a non-bot administrator, and the reply names it. The marker becomes `last_used[chat := today]` and no other marker or chat's tally changes |
| `ClownBot.ChosenTally` | main.py:137-150 | after a selection, the winner's count under `str(id)` is one higher. A new entry ends at 1. An existing entry keeps its name and username. Every other key of the chat is unchanged |
| `ClownBot.IdempotentWithinDay` | main.py:88-90 | after a selection, any further `/clown` on the same date hits the gate and changes nothing |
| `ClownBot.Run` | main.py:82-154 | a sequence of `/clown` commands in one chat applied in order; `RunSum` and `RunOneDay` state its properties |
| `ClownBot.StepSum` | main.py:149 | a step adds 1 to the chat's total count exactly when it chooses a winner, and leaves other chats' totals alone |
| `ClownBot.WinValid` | main.py:141-150 | recording a win keeps every chat's keys unique |
| `ClownBot.StepValid` | main.py:141-149 | a step keeps every chat's keys unique |
| `ClownBot.RunSum` | main.py:82-154 | over any sequence of commands, the chat's total count grows by exactly the number of winners chosen |
| `ClownBot.RunOneDay` | main.py:88-90 | commands that all fall on one date choose at most one winner. If that date's clown was already chosen, they choose none and leave the state unchanged |
| `ClownBot.ScenarioMembers` | main.py:54-61 | three non-bot administrators give three members, the first being the first administrator's record |
| `ClownBot.ScenarioFirstDay` | main.py:137-154 | from an empty store, the first pick on D1 leaves that member's count at 1 and sets the marker to D1 |
| `ClownBot.ScenarioSameDay` | main.py:88-90 | a second command on D1 answers with the standings and changes nothing |
| `ClownBot.ScenarioNextDay` | main.py:137-154 | picking the same member on D2 makes its count 2 and moves the marker to D2 |
| `ClownBot.Bot.constructor` | main.py:217-218 | the bot starts from the marker document loaded at startup and from the tally as stored, each chat's keys unique. The code re-reads the tally file at every command (lines 137, 162, 184). Keeping it in memory is equivalent, because every update is saved at once (line 150) and the process is the file's only writer |
| `ClownBot.Bot.Clown` | main.py:82-154 | the in-place command leaves the state and reply that `ClownStep` gives, and keeps every chat's keys unique |
| `ClownBot.Bot.RecordWin` | main.py:137-154 | the in-place tally and marker update gives the state of a win, and keeps every chat's keys unique |
| `ClownBot.Bot.ShowTodayStats` | main.py:160-179 | the reply is the today view of the current tally, or the empty message |
| `ClownBot.Bot.ClownStats` | main.py:181-201 | the reply is the full view of the current tally, or the empty message |

## Left out

- Telegram transport is left out: `get_chat_administrators`, `reply_text`, the application, its handlers and `/start`. The administrator list is a parameter, and replies are returned values.
- The first `/clown` message, a phrase chosen at random from a fixed pool, is left out. It has no logic beyond the random choice. Only the result message naming the winner is modelled.
- The one-second pause between the two messages (`asyncio.sleep`), logging, and `atexit`/signal cleanup are left out. They concern timing and the process lifecycle.
- JSON load and save are left out. The documents are in-memory maps, and a missing file is an empty map. Storage failures and corrupt files are not modelled.
- The `except` branch of `clown_command` is left out: a transport or storage error answers with a generic message. So is the window where the tally is saved but the marker is not.
- The fallback of five hard-coded users when the administrator list cannot be fetched is left out. It is error plumbing around a foreign call.
- The `len(members) < 2` branch of `get_chat_members` is not modelled: its body is `pass`, so it has no effect.
- Randomness is left out. `random.choice` is a caller-supplied index, because a uniform distribution cannot be stated here. `date.today()` is a parameter.
- JSON key order is not modelled on the outer maps (chat to document), because nothing iterates over chats.
- Add, remove, list and bulk-import roster commands are not modelled. They are not part of `main.py`.
- `ClownBot.RunSum`: states that the total grows by the number of winners, and `RunOneDay` bounds winners to one per date. The count of distinct dates itself is not stated.
- Counts loaded from the document are taken to be natural numbers.
