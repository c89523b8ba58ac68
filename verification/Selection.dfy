/** The greedy choice of the items of a body: what it guarantees about the set it picks. */
module Selection {
  import opened Multipart
  import opened Exchange
  import opened ExchangeProofs

  predicate NoneSelected<T>(es: seq<Entry<T>>) {
    forall i :: 0 <= i < |es| ==> es[i].status != Selected
  }

  function SelectedSize<T>(es: seq<Entry<T>>): nat {
    if es == [] then 0 else (if es[0].status.Selected? then es[0].size else 0) + SelectedSize(es[1..])
  }

  /** The sizes are the estimates. */
  ghost predicate Sized<T(!new), C(!new)>(kind: Kind<T, C>, es: seq<Entry<T>>) {
    forall i :: 0 <= i < |es| ==> es[i].size == kind.EstimateOf(es[i].item)
  }

  /** The space left is exactly what the chosen items do not take. */
  lemma {:induction false} SelectionFits<T>(es: seq<Entry<T>>, room: nat)
    requires NoneSelected(es)
    ensures SelectedSize(Select(es, room)) + RoomLeft(es, room) == room
  {
    if es != [] {
      SelectionFits(es[1..], if es[0].size <= room then room - es[0].size else room);
    }
  }

  /** An entry is chosen exactly if it fits into what the entries before it have left. */
  lemma {:induction false} SelectionAt<T>(es: seq<Entry<T>>, room: nat, i: nat)
    requires i < |es|
    ensures Select(es, room)[i] == if es[i].size <= RoomLeft(es[..i], room) then es[i].(status := Selected) else es[i]
  {
    if i > 0 {
      var after := if es[0].size <= room then room - es[0].size else room;
      SelectionAt(es[1..], after, i - 1);
      assert es[..i][1..] == es[1..][..i - 1];
    }
  }

  lemma {:induction false} RoomShrinks<T>(es: seq<Entry<T>>, room: nat, i: nat)
    requires i <= |es|
    ensures RoomLeft(es, room) <= RoomLeft(es[..i], room)
  {
    if i > 0 {
      var after := if es[0].size <= room then room - es[0].size else room;
      RoomShrinks(es[1..], after, i - 1);
      assert es[..i][1..] == es[1..][..i - 1];
    }
  }

  lemma {:induction false} NothingFits<T>(es: seq<Entry<T>>, room: nat)
    requires forall i :: 0 <= i < |es| ==> es[i].size > room
    ensures RoomLeft(es, room) == room
  {
    if es != [] {
      NothingFits(es[1..], room);
    }
  }

  /** Greedy selection of checked entries: the chosen items fill exactly the space that is not left;
      no further item fits into that; no item that is set aside is chosen, although its status is not
      looked at; and the oldest item that can be sent is. */
  lemma GreedySelection<T(!new), C(!new)>(kind: Kind<T, C>, es: seq<Entry<T>>, max: nat, i: nat)
    requires MULTIPART_CLOSE_LENGTH <= max && Checked(kind, es, max) && i < |es|
    ensures var chosen, left := Select(es, Space(max)), RoomLeft(es, Space(max));
            && SelectedSize(chosen) + left == Space(max)
            && (chosen[i].status != Selected ==> left < es[i].size)
            && (chosen[i].status == Selected ==> Eligible(kind, es[i].item, max))
            && (Eligible(kind, es[i].item, max) && AllIgnored(kind, es[..i], max) ==> chosen[i].status == Selected)
  {
    SelectionFits(es, Space(max));
    SelectionAt(es, Space(max), i);
    RoomShrinks(es, Space(max), i);
    if AllIgnored(kind, es[..i], max) {
      forall j | 0 <= j < i ensures es[..i][j].size > Space(max) {
        assert !Eligible(kind, es[..i][j].item, max);
      }
      NothingFits(es[..i], Space(max));
    }
  }
}
