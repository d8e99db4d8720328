/**
 * The client's string helpers: initials for avatars, truncation with an
 * ellipsis, and the title shown for a room.
 */
module ClientUtils {
  import opened Wrappers
  import opened Text
  import opened Seqs
  import opened Domain
  import opened ClientTypes

  // ---- getInitials ----------------------------------------------------------

  predicate IsWord(w: string) {
    w != []
  }

  /** The non-empty pieces of a name split at single spaces. */
  function Words(name: string): seq<string> {
    Filter(Split(name, ' '), IsWord)
  }

  /** `words.map(w => w.charAt(0)).join('')`: an empty piece contributes nothing. */
  function Heads(ws: seq<string>): string
    decreases |ws|
  {
    if ws == [] then [] else (if ws[0] == [] then [] else [ws[0][0]]) + Heads(ws[1..])
  }

  lemma {:induction false} HeadsAreFirstLetters(ws: seq<string>)
    ensures forall k :: 0 <= k < |Filter(ws, IsWord)| ==> Filter(ws, IsWord)[k] != []
    ensures |Heads(ws)| == |Filter(ws, IsWord)|
    ensures forall k :: 0 <= k < |Heads(ws)| ==> Heads(ws)[k] == Filter(ws, IsWord)[k][0]
    decreases |ws|
  {
    var f := Filter(ws, IsWord);
    assert forall k :: 0 <= k < |f| ==> f[k] in f;
    if ws != [] {
      HeadsAreFirstLetters(ws[1..]);
      if ws[0] != [] {
        assert Filter(ws, IsWord) == [ws[0]] + Filter(ws[1..], IsWord);
        assert Heads(ws) == [ws[0][0]] + Heads(ws[1..]);
      } else {
        assert Filter(ws, IsWord) == Filter(ws[1..], IsWord);
      }
    }
  }

  /**
   * `getInitials`: the first letters of the name's words, upper-cased, at most
   * two of them; runs of spaces produce no letters.
   */
  function Initials(name: string): (r: string)
    ensures |r| == if |Words(name)| < 2 then |Words(name)| else 2
    ensures forall k :: 0 <= k < |r| ==> r[k] == UpperChar(Words(name)[k][0])
  {
    var ws := Split(name, ' ');
    HeadsAreFirstLetters(ws);
    var u := Upper(Heads(ws));
    if |u| <= 2 then u else u[..2]
  }

  /** A name made of space-separated words has the upper-cased first letters of its first two words as initials. */
  lemma InitialsOfWords(ws: seq<string>)
    requires |ws| >= 1
    requires forall k :: 0 <= k < |ws| ==> ws[k] != [] && ' ' !in ws[k]
    ensures Initials(Join(ws, ' ')) ==
              if |ws| == 1 then [UpperChar(ws[0][0])] else [UpperChar(ws[0][0]), UpperChar(ws[1][0])]
  {
    SplitJoin(ws, ' ');
    FilterAll(ws, IsWord);
    InitialsFromWords(Join(ws, ' '), ws);
  }

  lemma InitialsFromWords(name: string, ws: seq<string>)
    requires Words(name) == ws && |ws| >= 1
    requires forall k :: 0 <= k < |ws| ==> ws[k] != []
    ensures Initials(name) ==
              if |ws| == 1 then [UpperChar(ws[0][0])] else [UpperChar(ws[0][0]), UpperChar(ws[1][0])]
  {
    var r := Initials(name);
    if |ws| == 1 {
      assert |r| == 1 && r[0] == UpperChar(ws[0][0]);
    } else {
      assert |r| == 2 && r[0] == UpperChar(ws[0][0]) && r[1] == UpperChar(ws[1][0]);
    }
  }

  // ---- truncateText ---------------------------------------------------------

  const Ellipsis := "..."

  /** The end index `slice(0, end)` uses: a negative end counts from the back; both are clamped to the string. */
  function SliceEnd(len: nat, end: int): (r: nat)
    ensures r <= len
    ensures 0 <= end <= len ==> r == end
    ensures end < 0 ==> r == if len + end < 0 then 0 else len + end
  {
    if end < 0 then (if len + end < 0 then 0 else len + end)
    else if end > len then len
    else end
  }

  /** `truncateText`: short enough texts are kept; longer ones are cut and get an ellipsis. */
  function TruncateText(text: string, maxLength: int): (r: string)
    ensures |text| <= maxLength ==> r == text
    ensures 0 <= maxLength < |text| ==>
              |r| == maxLength + 3 && r[..maxLength] == text[..maxLength] && r[maxLength..] == Ellipsis
    ensures maxLength < 0 ==> r == text[..SliceEnd(|text|, maxLength)] + Ellipsis
  {
    if |text| <= maxLength then text
    else text[..SliceEnd(|text|, maxLength)] + Ellipsis
  }

  /** Whatever the limit, the result starts with a prefix of the text, and a non-negative limit bounds its length. */
  lemma TruncateBounded(text: string, maxLength: int)
    requires maxLength >= 0
    ensures |TruncateText(text, maxLength)| <= maxLength + 3
    ensures var r := TruncateText(text, maxLength);
            var n := if |text| <= maxLength then |text| else maxLength;
            r[..n] == text[..n]
  {
  }

  // ---- generateRoomName -----------------------------------------------------

  const UnknownUser := "Unknown User"

  /** The participant test of `generateRoomName`: anyone but the given user. */
  function NotUser(id: UserId): ClientUser -> bool {
    (p: ClientUser) => p.id != id
  }

  /** `displayName || 'Unknown User'`: an empty name falls back to the placeholder. */
  function NameOrUnknown(name: string): string {
    if name == [] then UnknownUser else name
  }

  /**
   * The title of a room: its name for a group; for a personal room, the name
   * of the first participant who is not the given user.
   */
  function GenerateRoomName(room: ClientRoom, currentUserId: UserId): (r: string)
    ensures room.kind == Group ==> r == room.name
    ensures room.kind == Personal ==>
              forall k :: IsFirst(room.participants, NotUser(currentUserId), k) ==>
                r == NameOrUnknown(room.participants[k].displayName)
    ensures (room.kind == Personal && forall j :: 0 <= j < |room.participants| ==> room.participants[j].id == currentUserId)
              ==> r == UnknownUser
    ensures room.kind == Personal ==> r == UnknownUser || exists p :: p in room.participants && p.id != currentUserId
                                                                     && p.displayName == r
  {
    FindIsFirst(room.participants, NotUser(currentUserId));
    if room.kind == Group then room.name
    else match Find(room.participants, NotUser(currentUserId))
      case None => UnknownUser
      case Some(p) => NameOrUnknown(p.displayName)
  }

  /** In a personal room of two different users, each sees the other's name (when it is not empty). */
  lemma PersonalRoomShowsOther(room: ClientRoom, me: ClientUser, other: ClientUser)
    requires room.kind == Personal && me.id != other.id && other.displayName != []
    requires room.participants == [me, other] || room.participants == [other, me]
    ensures GenerateRoomName(room, me.id) == other.displayName
  {
    var s := room.participants;
    var found := Find(s, NotUser(me.id));
    assert NotUser(me.id)(other) && !NotUser(me.id)(me);
    var i := if s == [me, other] then 1 else 0;
    assert s[i] == other;
    var k :| 0 <= k < |s| && s[k] == found.value && forall j :: 0 <= j < k ==> !NotUser(me.id)(s[j]);
    assert found.value == other;
  }
}
