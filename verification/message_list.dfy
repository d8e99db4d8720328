/**
 * How the message list lays out a conversation: which bubbles are the
 * reader's own, where an avatar and a time stamp are shown, and the typing
 * indicator under the list.
 */
module MessageList {
  import opened Wrappers
  import opened Domain
  import opened ClientTypes
  import opened ChatStore

  /** Five minutes, in milliseconds: a longer gap between neighbours shows the time again. */
  const TimeGap := 5 * 60 * 1000

  datatype Bubble = Bubble(isOwn: bool, showAvatar: bool, showTime: bool)

  /** How message `i` is drawn: own, with avatar, with time. `Layout` states it for every message. */
  function BubbleAt(msgs: seq<ClientMessage>, i: nat, me: Option<UserId>): Bubble
    requires i < |msgs|
  {
    Bubble(me.Some? && msgs[i].sender.id == me.value,
           i == 0 || msgs[i - 1].sender.id != msgs[i].sender.id,
           i == 0 || msgs[i].createdAt - msgs[i - 1].createdAt > TimeGap)
  }

  /**
   * One bubble per message. A message is the reader's own when a reader is
   * signed in and sent it; the first message shows avatar and time; a later one
   * shows the avatar when the sender changes and the time after a gap of more
   * than five minutes.
   */
  function Layout(msgs: seq<ClientMessage>, me: Option<UserId>): (r: seq<Bubble>)
    ensures |r| == |msgs|
    ensures forall i :: 0 <= i < |msgs| ==> (r[i].isOwn <==> me.Some? && msgs[i].sender.id == me.value)
    ensures |msgs| > 0 ==> r[0].showAvatar && r[0].showTime
    ensures forall i :: 0 < i < |msgs| ==> (r[i].showAvatar <==> msgs[i - 1].sender.id != msgs[i].sender.id)
    ensures forall i :: 0 < i < |msgs| ==> (r[i].showTime <==> msgs[i].createdAt - msgs[i - 1].createdAt > TimeGap)
  {
    seq(|msgs|, i requires 0 <= i < |msgs| => BubbleAt(msgs, i, me))
  }

  /** A message arriving live leaves every earlier bubble as it was. */
  lemma LiveMessageKeepsLayout(msgs: seq<ClientMessage>, m: ClientMessage, me: Option<UserId>)
    ensures Layout(msgs + [m], me)[..|msgs|] == Layout(msgs, me)
  {
    var all := msgs + [m];
    forall i | 0 <= i < |msgs| ensures Layout(all, me)[i] == Layout(msgs, me)[i] {
      assert all[i] == msgs[i];
      if i > 0 { assert all[i - 1] == msgs[i - 1]; }
    }
  }

  /** Loading older messages in front changes, among the loaded ones, only the first bubble. */
  lemma OlderPageKeepsLayout(older: seq<ClientMessage>, msgs: seq<ClientMessage>, me: Option<UserId>)
    requires |msgs| >= 1
    ensures Layout(older + msgs, me)[|older| + 1..] == Layout(msgs, me)[1..]
    ensures Layout(older + msgs, me)[..|older|] == Layout(older, me)
  {
    var all := older + msgs;
    var n := |older|;
    forall i | n + 1 <= i < |all| ensures Layout(all, me)[i] == Layout(msgs, me)[i - n] {
      assert all[i] == msgs[i - n] && all[i - 1] == msgs[i - n - 1];
    }
    forall i | 0 <= i < n ensures Layout(all, me)[i] == Layout(older, me)[i] {
      assert all[i] == older[i];
      if i > 0 { assert all[i - 1] == older[i - 1]; }
    }
  }

  /**
   * The typing indicator: shown whenever the typing map has any entry, with
   * the number of entries over every room's list.
   */
  function TypingIndicator(m: TypingMap): (r: Option<nat>)
    ensures r.Some? <==> |m| > 0
    ensures r.Some? ==> r.value == TotalTyping(m)
  {
    if |m| > 0 then Some(TotalTyping(m)) else None
  }

  /** A room whose list has been emptied still shows the indicator, counting nobody. */
  lemma {:induction false} EmptiedListsStillShown(m: TypingMap)
    requires |m| > 0 && forall i :: 0 <= i < |m| ==> m[i].1 == []
    ensures TypingIndicator(m) == Some(0)
  {
    NoTypists(m);
  }

  lemma {:induction false} NoTypists(m: TypingMap)
    requires forall i :: 0 <= i < |m| ==> m[i].1 == []
    ensures TotalTyping(m) == 0
    decreases |m|
  {
    if m != [] {
      assert forall i :: 0 <= i < |m[1..]| ==> m[1..][i] == m[i + 1];
      NoTypists(m[1..]);
    }
  }

  /** The count moves with any room's list, not only the open room's. */
  lemma IndicatorCountsEveryRoom(m: TypingMap, roomId: RoomId, v: seq<TypingUser>)
    requires KeysDistinct(m)
    ensures TypingIndicator(MapSet(m, roomId, v)).Some?
    ensures TypingIndicator(MapSet(m, roomId, v)).value == TotalTyping(m) - |MapGet(m, roomId).GetOr([])| + |v|
  {
    TotalAfterSet(m, roomId, v);
    MapSetKeys(m, roomId, v);
    assert roomId in Keys(MapSet(m, roomId, v));
  }
}
