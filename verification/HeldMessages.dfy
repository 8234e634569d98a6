/** src/app_shell/deferred_messages.h: the interactions held while a Shell call pumps the message
    loop, and which of them are worth replaying. */
module HeldMessages {
  datatype Message = Message(target: int, kind: int, wparam: int, lparam: int)

  const WM_CONTEXTMENU := 0x007B
  const WM_LBUTTONDOWN := 0x0201
  const WM_LBUTTONUP := 0x0202
  const WM_LBUTTONDBLCLK := 0x0203

  /** deferred_message_replaces_previous(). Callers add the messages of their own that do. */
  predicate ReplacesPrevious(kind: int) {
    kind == WM_LBUTTONDOWN || kind == WM_LBUTTONDBLCLK || kind == WM_LBUTTONUP || kind == WM_CONTEXTMENU
  }

  /** Only clicks of the left button and context menus replace what came before. */
  lemma ClicksReplace(kind: int)
    ensures ReplacesPrevious(kind) <==> 0x201 <= kind <= 0x203 || kind == 0x7B
  {
  }

  predicate SameSlot(a: Message, b: Message) {
    a.target == b.target && a.kind == b.kind
  }

  /** The position of the first entry with the target and kind of m, or the length. */
  function SlotOf(held: seq<Message>, m: Message): (i: nat)
    ensures i <= |held| && (i < |held| ==> SameSlot(held[i], m))
    ensures forall j | 0 <= j < i :: !SameSlot(held[j], m)
  {
    if held == [] then 0 else if SameSlot(held[0], m) then 0 else 1 + SlotOf(held[1..], m)
  }

  /** hold_deferred_message(): the queue after it. */
  function Hold(held: seq<Message>, m: Message, supersedes: bool): seq<Message> {
    if supersedes then
      var i := SlotOf(held, m);
      if i < |held| then held[i := m] else held + [m]
    else if m in held then held
    else held + [m]
  }

  class HeldQueue {
    var held: seq<Message>

    constructor ()
      ensures held == []
    {
      held := [];
    }

    /** True when the message became a new entry. */
    method HoldMessage(m: Message, supersedes: bool) returns (added: bool)
      modifies this
      ensures held == Hold(old(held), m, supersedes)
      ensures added <==> |held| == |old(held)| + 1
    {
      if supersedes {
        for i := 0 to |held|
          invariant held == old(held)
          invariant forall j | 0 <= j < i :: !SameSlot(held[j], m)
        {
          if held[i].target != m.target || held[i].kind != m.kind { continue; }
          held := held[i := held[i].(wparam := m.wparam, lparam := m.lparam)];
          return false;
        }
      } else if m in held {
        return false;
      }
      held := held + [m];
      return true;
    }

    /** take_deferred_messages(). */
    method Take() returns (taken: seq<Message>)
      modifies this
      ensures taken == old(held) && held == []
    {
      taken := [];
      taken, held := held, taken;
    }
  }

  // ----- What the queue means

  /** What an arrival is coalesced by: its slot if only the newest payload counts, else all of it. */
  datatype Key = Slot(target: int, kind: int) | Whole(message: Message)

  function KeyOf(m: Message, supersedes: int -> bool): Key {
    if supersedes(m.kind) then Slot(m.target, m.kind) else Whole(m)
  }

  /** The queue after these arrivals, oldest first. */
  function Queue(arrivals: seq<Message>, supersedes: int -> bool): seq<Message> {
    if arrivals == [] then []
    else
      var newest := arrivals[|arrivals| - 1];
      Hold(Queue(arrivals[..|arrivals| - 1], supersedes), newest, supersedes(newest.kind))
  }

  /** The keys of these arrivals, each once, in the order of their first arrival. */
  function KeysInOrder(arrivals: seq<Message>, supersedes: int -> bool): seq<Key> {
    if arrivals == [] then []
    else
      var earlier := KeysInOrder(arrivals[..|arrivals| - 1], supersedes);
      var key := KeyOf(arrivals[|arrivals| - 1], supersedes);
      if key in earlier then earlier else earlier + [key]
  }

  /** The newest arrival with this key. */
  function Newest(arrivals: seq<Message>, key: Key, supersedes: int -> bool): (m: Message)
    requires exists i | 0 <= i < |arrivals| :: KeyOf(arrivals[i], supersedes) == key
    ensures KeyOf(m, supersedes) == key && m in arrivals
  {
    var newest := arrivals[|arrivals| - 1];
    if KeyOf(newest, supersedes) == key then newest
    else
      var earlier := arrivals[..|arrivals| - 1];
      var i :| 0 <= i < |arrivals| && KeyOf(arrivals[i], supersedes) == key;
      assert KeyOf(earlier[i], supersedes) == key;
      Newest(earlier, key, supersedes)
  }

  lemma {:induction false} KeysArrived(arrivals: seq<Message>, supersedes: int -> bool)
    ensures forall key | key in KeysInOrder(arrivals, supersedes) ::
      exists i | 0 <= i < |arrivals| :: KeyOf(arrivals[i], supersedes) == key
    ensures forall m | m in arrivals :: KeyOf(m, supersedes) in KeysInOrder(arrivals, supersedes)
    ensures forall i, j | 0 <= i < j < |KeysInOrder(arrivals, supersedes)| ::
      KeysInOrder(arrivals, supersedes)[i] != KeysInOrder(arrivals, supersedes)[j]
  {
    if arrivals != [] {
      var earlier := arrivals[..|arrivals| - 1];
      KeysArrived(earlier, supersedes);
      forall key | key in KeysInOrder(arrivals, supersedes)
        ensures exists i | 0 <= i < |arrivals| :: KeyOf(arrivals[i], supersedes) == key
      {
        if key in KeysInOrder(earlier, supersedes) {
          var i :| 0 <= i < |earlier| && KeyOf(earlier[i], supersedes) == key;
          assert KeyOf(arrivals[i], supersedes) == key;
        } else {
          assert KeyOf(arrivals[|arrivals| - 1], supersedes) == key;
        }
      }
      assert arrivals == earlier + [arrivals[|arrivals| - 1]];
    }
  }

  /** The queue holds one entry for each key, in the order in which the interactions first arrived,
      and each entry is the newest arrival of its key. */
  lemma {:induction false} QueueCoalesces(arrivals: seq<Message>, supersedes: int -> bool)
    ensures |Queue(arrivals, supersedes)| == |KeysInOrder(arrivals, supersedes)|
    ensures forall i | 0 <= i < |Queue(arrivals, supersedes)| ::
      && (exists j | 0 <= j < |arrivals| :: KeyOf(arrivals[j], supersedes) == KeysInOrder(arrivals, supersedes)[i])
      && Queue(arrivals, supersedes)[i] == Newest(arrivals, KeysInOrder(arrivals, supersedes)[i], supersedes)
  {
    KeysArrived(arrivals, supersedes);
    if arrivals != [] {
      var earlier, newest := arrivals[..|arrivals| - 1], arrivals[|arrivals| - 1];
      QueueCoalesces(earlier, supersedes);
      KeysArrived(earlier, supersedes);
      QueuedAs(Queue(earlier, supersedes), KeysInOrder(earlier, supersedes), newest, supersedes);
    }
  }

  /** A message is coalesced with the entry that has its key, if there is one. */
  lemma QueuedAs(held: seq<Message>, keys: seq<Key>, m: Message, supersedes: int -> bool)
    requires |held| == |keys| && forall i | 0 <= i < |held| :: KeyOf(held[i], supersedes) == keys[i]
    requires forall i, j | 0 <= i < j < |keys| :: keys[i] != keys[j]
    ensures KeyOf(m, supersedes) !in keys ==> Hold(held, m, supersedes(m.kind)) == held + [m]
    ensures forall i | 0 <= i < |keys| && keys[i] == KeyOf(m, supersedes) ::
      Hold(held, m, supersedes(m.kind)) == held[i := m]
  {
    if supersedes(m.kind) {
      forall i | 0 <= i < |held| ensures SameSlot(held[i], m) <==> keys[i] == KeyOf(m, supersedes) {
      }
    } else if m in held {
      var i :| 0 <= i < |held| && held[i] == m;
      assert keys[i] == KeyOf(m, supersedes);
      assert held[i := m] == held;
    } else {
      forall i | 0 <= i < |held| ensures keys[i] != KeyOf(m, supersedes) {
      }
    }
  }
}
