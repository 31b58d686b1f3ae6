/** The candidates for "clown of the day": the chat's administrators as the
    messaging platform reports them, with bot accounts dropped and each
    remaining user reduced to the three fields the bot keeps
    (`get_chat_members` in main.py). */
module Members {

  datatype Option<T> = None | Some(value: T)

  /** What the platform reports about an administrator.  `firstName` and
      `username` may be absent (Python `None`). */
  datatype User = User(id: int, isBot: bool, firstName: Option<string>, username: Option<string>)

  /** A candidate as the bot stores it: `{id, first_name, username}`. */
  datatype Member = Member(id: int, firstName: string, username: Option<string>)

  /** Python's `x or default` on an optional string: an absent or empty
      string is falsy and yields the default. */
  function OrElse(x: Option<string>, default: string): string {
    if x.Some? && x.value != "" then x.value else default
  }

  const UnknownName := "Unknown"

  /** The record appended for one non-bot administrator. */
  function ToMember(u: User): (m: Member)
    ensures m.id == u.id && m.username == u.username
    ensures m.firstName != ""
    ensures u.firstName.Some? && u.firstName.value != "" ==> m.firstName == u.firstName.value
    ensures u.firstName == None || u.firstName == Some("") ==> m.firstName == UnknownName
  {
    Member(u.id, OrElse(u.firstName, UnknownName), u.username)
  }

  /** The members list built from the administrator list, in its order. */
  function NonBotMembers(admins: seq<User>): seq<Member> {
    if admins == [] then []
    else
      var last := admins[|admins| - 1];
      NonBotMembers(admins[..|admins| - 1]) + (if last.isBot then [] else [ToMember(last)])
  }

  /** The filter distributes over concatenation: it keeps the relative order
      of the administrators it does not drop. */
  lemma {:induction false} NonBotMembersAppend(a: seq<User>, b: seq<User>)
    ensures NonBotMembers(a + b) == NonBotMembers(a) + NonBotMembers(b)
    decreases |b|
  {
    if b == [] {
      assert a + b == a;
    } else {
      var b' := b[..|b| - 1];
      assert (a + b)[..|a + b| - 1] == a + b';
      NonBotMembersAppend(a, b');
    }
  }

  lemma {:induction false} NonBotMembersLength(admins: seq<User>)
    ensures |NonBotMembers(admins)| <= |admins|
    ensures (forall i :: 0 <= i < |admins| ==> !admins[i].isBot) ==> |NonBotMembers(admins)| == |admins|
    ensures (forall i :: 0 <= i < |admins| ==> admins[i].isBot) ==> NonBotMembers(admins) == []
    decreases |admins|
  {
    if admins != [] {
      NonBotMembersLength(admins[..|admins| - 1]);
    }
  }

  /** Every record in the members list comes from a non-bot administrator. */
  lemma {:induction false} MemberSource(admins: seq<User>, m: Member) returns (i: nat)
    requires m in NonBotMembers(admins)
    ensures i < |admins| && !admins[i].isBot && ToMember(admins[i]) == m
    decreases |admins|
  {
    var init := admins[..|admins| - 1];
    var last := admins[|admins| - 1];
    if m in NonBotMembers(init) {
      i := MemberSource(init, m);
      assert admins[i] == init[i];
    } else {
      i := |admins| - 1;
    }
  }

  /** Every non-bot administrator's record is in the members list. */
  lemma {:induction false} MemberOfNonBot(admins: seq<User>, i: nat)
    requires i < |admins| && !admins[i].isBot
    ensures ToMember(admins[i]) in NonBotMembers(admins)
    decreases |admins|
  {
    var init := admins[..|admins| - 1];
    if i < |init| {
      MemberOfNonBot(init, i);
      assert init[i] == admins[i];
    }
  }

  /** A record is in the members list exactly when it is the record of some
      non-bot administrator. */
  lemma NonBotMembersMembership(admins: seq<User>, m: Member)
    ensures m in NonBotMembers(admins) <==>
            exists i :: 0 <= i < |admins| && !admins[i].isBot && ToMember(admins[i]) == m
  {
    if m in NonBotMembers(admins) {
      var i := MemberSource(admins, m);
    }
    if exists i :: 0 <= i < |admins| && !admins[i].isBot && ToMember(admins[i]) == m {
      var i :| 0 <= i < |admins| && !admins[i].isBot && ToMember(admins[i]) == m;
      MemberOfNonBot(admins, i);
    }
  }

  /** The loop of `get_chat_members` that appends one record per non-bot
      administrator. */
  method ChatMembers(admins: seq<User>) returns (members: seq<Member>)
    ensures members == NonBotMembers(admins)
  {
    members := [];
    var i := 0;
    while i < |admins|
      invariant 0 <= i <= |admins|
      invariant members == NonBotMembers(admins[..i])
    {
      var user := admins[i];
      assert admins[..i + 1][..i] == admins[..i];
      if !user.isBot {
        members := members + [ToMember(user)];
      }
      i := i + 1;
    }
    assert admins[..i] == admins;
  }
}
