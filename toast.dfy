/**
 * The toast notifications (src/components/ui/toast.tsx): a provider holds the list of
 * visible toasts, appends one per request and drops toasts by id. The random id and the
 * dismissal timer are inputs and outputs of `AddToast`; rendering is not modelled.
 */
module Toasts {
  import opened Wrappers

  /** `Omit<Toast, "id">`: what a caller asks to show. */
  datatype ToastData = ToastData(
    title: Option<string>,
    description: Option<string>,
    duration: Option<int>,
    image: Option<string>)

  /** `Toast`: the request spread together with its id. */
  datatype Toast = Toast(id: string, data: ToastData)

  /** The delay before a toast dismisses itself when the caller gives none. */
  const DefaultDuration := 3000

  /** `toast.duration ?? 3000`. */
  function AutoDismissDelay(data: ToastData): (d: int)
    ensures data.duration.None? ==> d == DefaultDuration
    ensures data.duration.Some? ==> d == data.duration.value
  {
    data.duration.GetOr(DefaultDuration)
  }

  /** `toasts.filter(toast => toast.id !== id)`. */
  function WithoutId(toasts: seq<Toast>, id: string): (r: seq<Toast>)
    ensures |r| <= |toasts|
    ensures forall i :: 0 <= i < |r| ==> r[i].id != id && r[i] in toasts
    ensures forall i :: 0 <= i < |toasts| && toasts[i].id != id ==> toasts[i] in r
    decreases |toasts|
  {
    if toasts == [] then []
    else if toasts[0].id == id then WithoutId(toasts[1..], id)
    else [toasts[0]] + WithoutId(toasts[1..], id)
  }

  /** Removing keeps the order of the others: it distributes over concatenation. */
  lemma {:induction false} WithoutIdAppend(a: seq<Toast>, b: seq<Toast>, id: string)
    ensures WithoutId(a + b, id) == WithoutId(a, id) + WithoutId(b, id)
    decreases |a|
  {
    if a == [] {
      assert a + b == b;
    } else {
      assert (a + b)[0] == a[0] && (a + b)[1..] == a[1..] + b;
      WithoutIdAppend(a[1..], b, id);
      if a[0].id != id {
        assert [a[0]] + (WithoutId(a[1..], id) + WithoutId(b, id))
            == ([a[0]] + WithoutId(a[1..], id)) + WithoutId(b, id);
      }
    }
  }

  /** Removing an id no toast carries changes nothing. */
  lemma {:induction false} WithoutAbsentId(toasts: seq<Toast>, id: string)
    requires forall i :: 0 <= i < |toasts| ==> toasts[i].id != id
    ensures WithoutId(toasts, id) == toasts
    decreases |toasts|
  {
    if toasts != [] {
      WithoutAbsentId(toasts[1..], id);
      assert [toasts[0]] + toasts[1..] == toasts;
    }
  }

  /** Removing the same id twice is removing it once. */
  lemma {:induction false} WithoutIdIdempotent(toasts: seq<Toast>, id: string)
    ensures WithoutId(WithoutId(toasts, id), id) == WithoutId(toasts, id)
  {
    WithoutAbsentId(WithoutId(toasts, id), id);
  }

  /**
   * A toast with a fresh id that is added and then dismissed by its timer leaves the
   * list as it was.
   */
  lemma AddThenDismiss(toasts: seq<Toast>, t: Toast)
    requires forall i :: 0 <= i < |toasts| ==> toasts[i].id != t.id
    ensures WithoutId(toasts + [t], t.id) == toasts
  {
    WithoutIdAppend(toasts, [t], t.id);
    WithoutAbsentId(toasts, t.id);
    assert WithoutId([t], t.id) == WithoutId([t][1..], t.id) == [];
  }

  /** The provider's state: the toasts on screen, oldest first. */
  class ToastProvider {
    var toasts: seq<Toast>

    constructor ()
      ensures toasts == []
    {
      toasts := [];
    }

    /**
     * `addToast(toast)` with the generated `id`: the toast is appended after the others,
     * and the delay after which its timer removes it is returned.
     */
    method AddToast(data: ToastData, id: string) returns (delay: int)
      modifies this
      ensures toasts == old(toasts) + [Toast(id, data)]
      ensures delay == AutoDismissDelay(data)
    {
      toasts := toasts + [Toast(id, data)];
      delay := AutoDismissDelay(data);
    }

    /** `removeToast(id)`: every toast with that id goes; the others keep their order. */
    method RemoveToast(id: string)
      modifies this
      ensures toasts == WithoutId(old(toasts), id)
    {
      toasts := WithoutId(toasts, id);
    }
  }

  /** The message `useToast` throws outside a provider. */
  const OutsideProviderError := "useToast must be used within a ToastProvider"

  /** `useToast()`: the provider in scope, or the error thrown when there is none. */
  function UseToast(context: Option<ToastProvider>): (r: Result<ToastProvider, string>)
    ensures r.Failure? <==> context.None?
    ensures r.Failure? ==> r.error == OutsideProviderError
    ensures r.Success? ==> context == Some(r.value)
  {
    match context
    case None => Failure(OutsideProviderError)
    case Some(provider) => Success(provider)
  }
}
