/** The notification queue (Toast.jsx): the provider keeps an ordered list of toasts, adds one
    at the end, removes by id, and schedules the automatic removal of each toast whose duration
    is positive. */
module Toasts {
  import opened Wrappers
  import opened Subsequences

  datatype ToastType = Success | Error | Warning | Info

  /** `{ id, message, type, duration }`; the id is the clock reading (`Date.now()`) at creation. */
  datatype Toast = Toast(id: int, message: string, kind: ToastType, duration: int)

  /** The defaults of `addToast(message, type = 'info', duration = 4000)`. */
  const DefaultType := Info
  const DefaultDuration := 4000

  /** `toasts.filter(toast => toast.id !== id)`. */
  function Without(ts: seq<Toast>, id: int): (r: seq<Toast>)
    ensures |r| <= |ts| && forall i :: 0 <= i < |r| ==> r[i].id != id
  {
    if ts == [] then []
    else (if ts[0].id == id then [] else [ts[0]]) + Without(ts[1..], id)
  }

  /** A toast survives the removal exactly when it was there and has another id. */
  lemma {:induction false} WithoutIff(ts: seq<Toast>, id: int, t: Toast)
    ensures t in Without(ts, id) <==> t in ts && t.id != id
  {
    if ts != [] {
      WithoutIff(ts[1..], id, t);
      assert ts == [ts[0]] + ts[1..];
    }
  }

  /** The remaining toasts keep their relative order. */
  lemma {:induction false} WithoutKeepsOrder(ts: seq<Toast>, id: int)
    ensures Embeds(Without(ts, id), ts)
  {
    if ts != [] {
      WithoutKeepsOrder(ts[1..], id);
      var rest := Without(ts[1..], id);
      if ts[0].id != id {
        assert Without(ts, id) == [ts[0]] + rest;
        assert ([ts[0]] + rest)[1..] == rest;
      } else {
        assert Without(ts, id) == rest;
      }
    }
  }

  /** Removal works piece by piece: removing from a concatenation removes from each part. */
  lemma {:induction false} WithoutAppend(a: seq<Toast>, b: seq<Toast>, id: int)
    ensures Without(a + b, id) == Without(a, id) + Without(b, id)
  {
    if a != [] {
      WithoutAppend(a[1..], b, id);
      assert (a + b)[1..] == a[1..] + b;
    } else {
      assert a + b == b;
    }
  }

  /** Removing an id that no toast carries changes nothing. */
  lemma {:induction false} WithoutAbsent(ts: seq<Toast>, id: int)
    requires forall i :: 0 <= i < |ts| ==> ts[i].id != id
    ensures Without(ts, id) == ts
  {
    if ts != [] {
      WithoutAbsent(ts[1..], id);
      assert ts == [ts[0]] + ts[1..];
    }
  }

  /** A second removal of the same id changes nothing. */
  lemma WithoutTwice(ts: seq<Toast>, id: int)
    ensures Without(Without(ts, id), id) == Without(ts, id)
  {
    var once := Without(ts, id);
    forall i | 0 <= i < |once| ensures once[i].id != id {
      WithoutIff(ts, id, once[i]);
    }
    WithoutAbsent(once, id);
  }

  /** Removing the id of a toast just added, when no earlier toast shares it, takes back
      exactly that toast. */
  lemma AddThenRemove(ts: seq<Toast>, t: Toast)
    requires forall i :: 0 <= i < |ts| ==> ts[i].id != t.id
    ensures Without(ts + [t], t.id) == ts
  {
    WithoutAppend(ts, [t], t.id);
    WithoutAbsent(ts, t.id);
    assert Without([t], t.id) == [];
  }

  /** A pending `setTimeout(() => removeToast(id), delay)`. */
  datatype Timer = Timer(id: int, delay: int)

  class ToastProvider {
    var toasts: seq<Toast>

    constructor ()
      ensures toasts == []
    {
      toasts := [];
    }

    /** `addToast` (lines 17-24), with `now` the clock reading; a missing type or duration
        takes its default. Exactly one toast is appended and the earlier ones stay as they
        were; a removal timer is scheduled only for a positive duration, so a toast with
        duration 0 or less stays until it is removed explicitly. */
    method AddToast(now: int, message: string, kind: Option<ToastType>, duration: Option<int>) returns (timer: Option<Timer>)
      modifies this
      ensures toasts == old(toasts) + [Toast(now, message, kind.GetOr(DefaultType), duration.GetOr(DefaultDuration))]
      ensures timer.Some? <==> duration.GetOr(DefaultDuration) > 0
      ensures timer.Some? ==> timer.value == Timer(now, duration.GetOr(DefaultDuration))
    {
      var t := Toast(now, message, kind.GetOr(DefaultType), duration.GetOr(DefaultDuration));
      toasts := toasts + [t];
      if t.duration > 0 {
        timer := Some(Timer(t.id, t.duration));
      } else {
        timer := None;
      }
    }

    /** `removeToast` (lines 26-28), called by a toast's close button and by its timer. */
    method RemoveToast(id: int)
      modifies this
      ensures toasts == Without(old(toasts), id)
    {
      toasts := Without(toasts, id);
    }

    /** `toast.success` (line 31). */
    method ShowSuccess(now: int, message: string, duration: Option<int>) returns (timer: Option<Timer>)
      modifies this
      ensures toasts == old(toasts) + [Toast(now, message, Success, duration.GetOr(DefaultDuration))]
      ensures timer.Some? <==> duration.GetOr(DefaultDuration) > 0
    {
      timer := AddToast(now, message, Some(Success), duration);
    }

    /** `toast.error` (line 32). */
    method ShowError(now: int, message: string, duration: Option<int>) returns (timer: Option<Timer>)
      modifies this
      ensures toasts == old(toasts) + [Toast(now, message, Error, duration.GetOr(DefaultDuration))]
      ensures timer.Some? <==> duration.GetOr(DefaultDuration) > 0
    {
      timer := AddToast(now, message, Some(Error), duration);
    }

    /** `toast.warning` (line 33). */
    method ShowWarning(now: int, message: string, duration: Option<int>) returns (timer: Option<Timer>)
      modifies this
      ensures toasts == old(toasts) + [Toast(now, message, Warning, duration.GetOr(DefaultDuration))]
      ensures timer.Some? <==> duration.GetOr(DefaultDuration) > 0
    {
      timer := AddToast(now, message, Some(Warning), duration);
    }

    /** `toast.info` (line 34). */
    method ShowInfo(now: int, message: string, duration: Option<int>) returns (timer: Option<Timer>)
      modifies this
      ensures toasts == old(toasts) + [Toast(now, message, Info, duration.GetOr(DefaultDuration))]
      ensures timer.Some? <==> duration.GetOr(DefaultDuration) > 0
    {
      timer := AddToast(now, message, Some(Info), duration);
    }
  }
}
