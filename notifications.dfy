/**
 * `NotificationSystem` of the seller dashboard: a single fixed container
 * holding stacked, individually dismissed status messages.
 *
 * The document-wide state is one `NotificationCenter` object; every
 * `new NotificationSystem()` works on it through `document.getElementById`,
 * which is what makes the container a singleton. The two timers of a
 * message (the 5 s expiry and the 300 ms slide-out before `remove()`) are
 * explicit step methods.
 */
module Notifications {
  import opened Wrappers

  /** A message and its type string ('success', 'error', 'warning', 'info' or anything a caller passes). */
  datatype Notice = Notice(message: string, kind: string)

  /** A notification element in the container; `id` stands for the element's identity. */
  datatype Entry = Entry(id: nat, notice: Notice)

  /** The type a message gets: `type = 'info'` applies only when no type is given. */
  function EffectiveKind(kind: Option<string>): (r: string)
    ensures kind.None? ==> r == "info"
    ensures kind.Some? ==> r == kind.value
  {
    kind.GetOr("info")
  }

  /** What the container shows, without the element identities. */
  function Notices(es: seq<Entry>): (r: seq<Notice>)
    ensures |r| == |es|
    ensures forall i :: 0 <= i < |es| ==> r[i] == es[i].notice
  {
    seq(|es|, i requires 0 <= i < |es| => es[i].notice)
  }

  lemma NoticesAppend(a: seq<Entry>, b: seq<Entry>)
    ensures Notices(a + b) == Notices(a) + Notices(b)
  {
  }

  ghost predicate UniqueIds(es: seq<Entry>) {
    forall i, j :: 0 <= i < j < |es| ==> es[i].id != es[j].id
  }

  predicate HasEntry(es: seq<Entry>, id: nat) {
    exists i :: 0 <= i < |es| && es[i].id == id
  }

  /** `notification.remove()`: the container without the element `id`, the rest in order. */
  function WithoutEntry(es: seq<Entry>, id: nat): (r: seq<Entry>)
    ensures |r| <= |es|
  {
    if es == [] then []
    else (if es[0].id == id then [] else [es[0]]) + WithoutEntry(es[1..], id)
  }

  /** Removal keeps exactly the elements with other identities, so none with `id` is left. */
  lemma {:induction false} WithoutEntryMembers(es: seq<Entry>, id: nat)
    ensures forall e :: e in WithoutEntry(es, id) <==> e in es && e.id != id
    ensures !HasEntry(WithoutEntry(es, id), id)
  {
    if es != [] {
      WithoutEntryMembers(es[1..], id);
      assert es == [es[0]] + es[1..];
    }
    var r := WithoutEntry(es, id);
    forall i | 0 <= i < |r| ensures r[i].id != id {
      assert r[i] in r;
    }
  }

  /** Removing an element that is no longer there changes nothing. */
  lemma {:induction false} WithoutAbsentEntry(es: seq<Entry>, id: nat)
    requires !HasEntry(es, id)
    ensures WithoutEntry(es, id) == es
  {
    if es != [] {
      assert es[0].id != id;
      assert !HasEntry(es[1..], id) by {
        forall i | 0 <= i < |es[1..]| ensures es[1..][i].id != id {
          assert es[1..][i] == es[i + 1];
        }
      }
      WithoutAbsentEntry(es[1..], id);
      assert [es[0]] + es[1..] == es;
    }
  }

  /** A second removal of the same element is a no-op. */
  lemma WithoutEntryTwice(es: seq<Entry>, id: nat)
    ensures WithoutEntry(WithoutEntry(es, id), id) == WithoutEntry(es, id)
  {
    WithoutEntryMembers(es, id);
    WithoutAbsentEntry(WithoutEntry(es, id), id);
  }

  /** With unique identities, removal takes out exactly the one element and keeps the others in order. */
  lemma {:induction false} WithoutEntryAt(es: seq<Entry>, k: nat)
    requires k < |es| && UniqueIds(es)
    ensures WithoutEntry(es, es[k].id) == es[..k] + es[k + 1..]
  {
    var id := es[k].id;
    if k == 0 {
      assert !HasEntry(es[1..], id) by {
        forall i | 0 <= i < |es[1..]| ensures es[1..][i].id != id {
          assert es[1..][i] == es[i + 1];
        }
      }
      WithoutAbsentEntry(es[1..], id);
    } else {
      assert es[1..][k - 1] == es[k];
      assert UniqueIds(es[1..]) by {
        forall i, j | 0 <= i < j < |es[1..]| ensures es[1..][i].id != es[1..][j].id {
          assert es[1..][i] == es[i + 1] && es[1..][j] == es[j + 1];
        }
      }
      WithoutEntryAt(es[1..], k - 1);
      assert es[0].id != id;
      assert es[1..][..k - 1] == es[1..k];
      assert es[1..][k..] == es[k + 1..];
      assert [es[0]] + es[1..k] == es[..k];
    }
  }

  /** Removal leaves elements appended before it untouched. */
  lemma WithoutEntryAppend(a: seq<Entry>, b: seq<Entry>, id: nat)
    requires !HasEntry(b, id)
    ensures WithoutEntry(a + b, id) == WithoutEntry(a, id) + b
    decreases |a|
  {
    if a == [] {
      assert a + b == b;
      WithoutAbsentEntry(b, id);
    } else {
      assert (a + b)[1..] == a[1..] + b;
      WithoutEntryAppend(a[1..], b, id);
    }
  }

  /** The elements created for `ns`, numbered from identity `start` on. */
  function Numbered(start: nat, ns: seq<Notice>): (r: seq<Entry>)
    ensures |r| == |ns| && Notices(r) == ns
    ensures forall i :: 0 <= i < |r| ==> r[i].id == start + i
  {
    seq(|ns|, i requires 0 <= i < |ns| => Entry(start + i, ns[i]))
  }

  lemma NumberedSnoc(start: nat, ns: seq<Notice>, n: Notice)
    ensures Numbered(start, ns + [n]) == Numbered(start, ns) + [Entry(start + |ns|, n)]
  {
  }

  lemma {:induction false} NumberedConcat(start: nat, ns: seq<Notice>, ms: seq<Notice>)
    ensures Numbered(start, ns) + Numbered(start + |ns|, ms) == Numbered(start, ns + ms)
  {
  }

  /** The identities `start`, …, `start + count - 1`. */
  function IdRange(start: nat, count: nat): (r: set<nat>)
    ensures forall i :: i in r <==> start <= i < start + count
  {
    if count == 0 then {} else IdRange(start, count - 1) + {start + count - 1}
  }

  lemma {:induction false} IdRangeConcat(start: nat, n: nat, m: nat)
    ensures IdRange(start, n) + IdRange(start + n, m) == IdRange(start, n + m)
  {
  }

  /** Messages shown in two stretches are the messages of both, numbered on from the first. */
  lemma PostedTwice(e0: seq<Entry>, x0: set<nat>, n0: nat, ns: seq<Notice>, ms: seq<Notice>,
                    e1: seq<Entry>, x1: set<nat>, e2: seq<Entry>, x2: set<nat>)
    requires e1 == e0 + Numbered(n0, ns) && x1 == x0 + IdRange(n0, |ns|)
    requires e2 == e1 + Numbered(n0 + |ns|, ms) && x2 == x1 + IdRange(n0 + |ns|, |ms|)
    ensures e2 == e0 + Numbered(n0, ns + ms) && x2 == x0 + IdRange(n0, |ns + ms|)
  {
    NumberedConcat(n0, ns, ms);
    IdRangeConcat(n0, |ns|, |ms|);
  }

  class NotificationCenter {
    /** Number of `#notification-container` elements in the document. */
    var containers: nat
    /** The container's children, in document order. */
    var entries: seq<Entry>
    /** Entries whose 5 s expiry timer has not fired yet. */
    var expiring: set<nat>
    /** Entries whose 300 ms slide-out timer is pending. */
    var leaving: set<nat>
    /** Identity for the next element created. */
    var nextId: nat

    ghost predicate Valid()
      reads this
    {
      && containers <= 1
      && (entries != [] ==> containers == 1)
      && UniqueIds(entries)
      && (forall i :: 0 <= i < |entries| ==> entries[i].id < nextId)
    }

    /** A document with no notification container yet. */
    constructor ()
      ensures Valid() && containers == 0 && entries == [] && expiring == {} && leaving == {}
    {
      containers, entries, expiring, leaving, nextId := 0, [], {}, {}, 0;
    }

    /** `createContainer`, run by every `new NotificationSystem()`: adds the container only if absent. */
    method CreateContainer()
      requires Valid()
      modifies this
      ensures Valid() && containers == 1
      ensures entries == old(entries) && expiring == old(expiring) && leaving == old(leaving) && nextId == old(nextId)
    {
      if containers == 0 {
        containers := 1;
      }
    }

    /**
     * `window.showNotification(message, type)`: a fresh `NotificationSystem`
     * (so `createContainer`) followed by `show`, which appends one element and
     * arms its expiry timer. Existing elements are untouched.
     */
    method Show(message: string, kind: Option<string>) returns (id: nat)
      requires Valid()
      modifies this
      ensures Valid() && containers == 1
      ensures id == old(nextId) && !HasEntry(old(entries), id)
      ensures entries == old(entries) + [Entry(id, Notice(message, EffectiveKind(kind)))]
      ensures nextId == old(nextId) + 1
      ensures expiring == old(expiring) + {id} && leaving == old(leaving)
    {
      CreateContainer();
      id := nextId;
      entries := entries + [Entry(id, Notice(message, EffectiveKind(kind)))];
      expiring := expiring + {id};
      nextId := nextId + 1;
    }

    /** `remove(notification)`: starts the slide-out and arms the 300 ms removal timer. */
    method Remove(id: nat)
      requires Valid()
      modifies this
      ensures Valid()
      ensures leaving == old(leaving) + {id}
      ensures entries == old(entries) && expiring == old(expiring)
      ensures containers == old(containers) && nextId == old(nextId)
    {
      leaving := leaving + {id};
    }

    /** The 5 s timer of element `id` fires (once). */
    method Expire(id: nat)
      requires Valid()
      modifies this
      ensures Valid()
      ensures expiring == old(expiring) - {id}
      ensures leaving == if id in old(expiring) then old(leaving) + {id} else old(leaving)
      ensures entries == old(entries) && containers == old(containers) && nextId == old(nextId)
    {
      if id in expiring {
        expiring := expiring - {id};
        Remove(id);
      }
    }

    /** A click on the close button of element `id`; the button exists only while the element does. */
    method CloseClicked(id: nat)
      requires Valid()
      modifies this
      ensures Valid()
      ensures leaving == if HasEntry(old(entries), id) then old(leaving) + {id} else old(leaving)
      ensures entries == old(entries) && expiring == old(expiring)
      ensures containers == old(containers) && nextId == old(nextId)
    {
      if HasEntry(entries, id) {
        Remove(id);
      }
    }

    /** The 300 ms timer of element `id` fires: `notification.remove()`, a no-op once detached. */
    method FinishRemoval(id: nat)
      requires Valid()
      modifies this
      ensures Valid()
      ensures entries == if id in old(leaving) then WithoutEntry(old(entries), id) else old(entries)
      ensures leaving == old(leaving) - {id} && expiring == old(expiring)
      ensures containers == old(containers) && nextId == old(nextId)
    {
      if id in leaving {
        entries := WithoutEntry(entries, id);
        leaving := leaving - {id};
        WithoutEntryUnique(old(entries), id);
        WithoutEntryMembers(old(entries), id);
        assert forall i :: 0 <= i < |entries| ==> entries[i] in old(entries);
      }
    }
  }

  /** Filtering keeps distinct identities distinct. */
  lemma {:induction false} WithoutEntryUnique(es: seq<Entry>, id: nat)
    requires UniqueIds(es)
    ensures UniqueIds(WithoutEntry(es, id))
  {
    if es != [] {
      var tail := es[1..];
      TailIds(es);
      WithoutEntryUnique(tail, id);
      WithoutEntryMembers(tail, id);
      var rest := WithoutEntry(tail, id);
      if es[0].id != id {
        forall e | e in rest ensures e.id != es[0].id {
          var k :| 0 <= k < |tail| && tail[k] == e;
        }
        ConsUniqueIds(es[0], rest);
      }
    }
  }

  /** The elements after the first keep unique identities, none of them the first one's. */
  lemma TailIds(es: seq<Entry>)
    requires es != [] && UniqueIds(es)
    ensures UniqueIds(es[1..]) && !HasEntry(es[1..], es[0].id)
  {
    forall i, j | 0 <= i < j < |es[1..]| ensures es[1..][i].id != es[1..][j].id {
      assert es[1..][i] == es[i + 1] && es[1..][j] == es[j + 1];
    }
    forall i | 0 <= i < |es[1..]| ensures es[1..][i].id != es[0].id {
      assert es[1..][i] == es[i + 1];
    }
  }

  /** An element whose identity no other has keeps the identities unique when put in front. */
  lemma ConsUniqueIds(h: Entry, rest: seq<Entry>)
    requires UniqueIds(rest) && forall e :: e in rest ==> e.id != h.id
    ensures UniqueIds([h] + rest)
  {
    var r := [h] + rest;
    forall a, b | 0 <= a < b < |r| ensures r[a].id != r[b].id {
      if a == 0 {
        assert r[b] == rest[b - 1] && rest[b - 1] in rest;
      } else {
        assert r[a] == rest[a - 1] && r[b] == rest[b - 1];
      }
    }
  }

  /**
   * Between the two states, exactly the messages `ns` were shown, in order,
   * through `window.showNotification`: each got a fresh element at the end of
   * the container and an armed expiry timer, and nothing else changed.
   */
  twostate predicate Posted(c: NotificationCenter, ns: seq<Notice>)
    reads c
  {
    && c.entries == old(c.entries) + Numbered(old(c.nextId), ns)
    && c.nextId == old(c.nextId) + |ns|
    && c.expiring == old(c.expiring) + IdRange(old(c.nextId), |ns|)
    && c.leaving == old(c.leaving)
    && c.containers == (if ns == [] then old(c.containers) else 1)
  }
}
