/** `handlers/service_handlers.py`: `/start`, `/cancel`, `/setutcoffset` and
    its offset step. */
module ServiceHandlers {
  import opened Wrappers
  import opened Text
  import opened Dates
  import opened Tables
  import opened Writes
  import opened Requests
  import opened Invariants
  import opened Messages
  import opened Conversation

  /** `/start` registers the caller once and greets them by the full name
      Telegram reports. */
  method CmdStart(b: Bot, u: int, fullName: string) returns (out: seq<Outbound>)
    requires b.Valid()
    modifies b.db
    ensures b.Valid()
    ensures b.conv == old(b.conv)
    ensures b.db.State() == old(b.db.State()).(users := InitUser(old(b.db.users), u))
    ensures out == [Answer(StartText(fullName))]
  {
    ghost var s0 := b.db.State();
    b.db.Init(u);
    InitKeepsValid(s0.users, s0.groups, s0.reports, s0.nextId, u);
    ConvSameGroups(b.conv, s0.users, b.db.users, b.db.groups);
    out := [Answer(StartText(fullName))];
  }

  /** `/cancel` ends a flow if there is one; the tables never change. */
  method CmdCancel(b: Bot, u: int) returns (out: seq<Outbound>)
    requires b.Valid()
    modifies b
    ensures unchanged(b.db)
    ensures b.Valid()
    ensures b.conv == old(b.conv) - {u}
    ensures out == if u in old(b.conv) then [Answer(CancelledText)] else [Answer(NothingToCancelText)]
  {
    if u in b.conv {
      b.Finish(u);
      out := [Answer(CancelledText)];
    } else {
      out := [Answer(NothingToCancelText)];
    }
  }

  /** `/setutcoffset` enters the offset step, whatever the caller was
      doing. */
  method CmdSetUtcOffset(b: Bot, u: int) returns (out: seq<Outbound>)
    requires b.Valid()
    modifies b
    ensures unchanged(b.db)
    ensures b.Valid()
    ensures b.conv == old(b.conv)[u := UtcOffsetStep]
    ensures out == [Answer(AskUtcOffsetText)]
  {
    ConvSet(b.conv, b.db.users, b.db.groups, u, UtcOffsetStep, b.conv[u := UtcOffsetStep]);
    b.conv := b.conv[u := UtcOffsetStep];
    out := [Answer(AskUtcOffsetText)];
  }

  /** The offset step: an integer strictly inside a day each side is stored
      as the caller's offset and ends the flow; anything else is refused and
      the step repeats. */
  method GetUtcOffset(b: Bot, u: int, text: string) returns (out: seq<Outbound>)
    requires b.Valid() && u in b.conv && b.conv[u] == UtcOffsetStep
    modifies b, b.db
    ensures b.Valid()
    ensures match ParseInt(text)
      case None =>
        out == [Answer(OffsetNotIntegerText)] && b.conv == old(b.conv) && b.db.State() == old(b.db.State())
      case Some(n) =>
        if -DaySeconds < n < DaySeconds then
          out == [Answer(OffsetSetText)] && b.conv == old(b.conv) - {u}
          && b.db.State() == old(b.db.State()).(users := WithUtcOffset(old(b.db.users), u, n))
        else
          out == [Answer(OffsetOutOfBoundsText)] && b.conv == old(b.conv) && b.db.State() == old(b.db.State())
  {
    var parsed := ParseInt(text);
    if parsed.None? {
      return [Answer(OffsetNotIntegerText)];
    }
    var offset := parsed.value;
    if !(-DaySeconds < offset < DaySeconds) {
      return [Answer(OffsetOutOfBoundsText)];
    }
    ghost var s0 := b.db.State();
    b.db.SetUtcOffset(u, offset);
    SetUtcOffsetKeepsValid(s0.users, s0.groups, s0.reports, s0.nextId, u, offset);
    ConvSameGroups(b.conv, s0.users, b.db.users, b.db.groups);
    b.Finish(u);
    out := [Answer(OffsetSetText)];
  }
}
