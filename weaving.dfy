/**
 Rules both weavers share: how an event's processing ends, and the name and
 attributes of the unsubscribe method synthesised for its add accessor.
 */
module Weaving {
  import opened Cecil

  /** Which way `ProcessEvent` went; the log message text is not modelled. */
  datatype Outcome = SkippedNoField | SkippedIncompatibleType | Woven

  const UnsubscribeSuffix: string := ">_Weak_Unsubscribe"

  /** `string.Format("<{0}>_Weak_Unsubscribe", addName)`. */
  function UnsubscribeMethodName(addName: string): (r: string)
    ensures |r| == |addName| + 1 + |UnsubscribeSuffix|
  {
    "<" + addName + UnsubscribeSuffix
  }

  /** Recognises the name template and recovers the add accessor's name. */
  function AccessorNameOf(name: string): Option<string>
  {
    var n := |UnsubscribeSuffix|;
    if |name| >= 1 + n && name[0] == '<' && name[|name| - n..] == UnsubscribeSuffix
    then Some(name[1..|name| - n])
    else None
  }

  /** The template can be read back: it yields exactly the name it was filled with. */
  lemma UnsubscribeNameRoundTrip(addName: string)
    ensures AccessorNameOf(UnsubscribeMethodName(addName)) == Some(addName)
  {
    var r := UnsubscribeMethodName(addName);
    var n := |UnsubscribeSuffix|;
    assert r[|r| - n..] == UnsubscribeSuffix;
    assert r[1..|r| - n] == addName;
  }

  /** Every name the reader accepts is the template filled with what it read. */
  lemma AccessorNameOfSound(name: string)
    requires AccessorNameOf(name).Some?
    ensures UnsubscribeMethodName(AccessorNameOf(name).value) == name
  {
    var n := |UnsubscribeSuffix|;
    var a := name[1..|name| - n];
    assert name == [name[0]] + a + name[|name| - n..];
  }

  /** Distinct add accessors get distinct unsubscribe method names. */
  lemma UnsubscribeNameInjective(a: string, b: string)
    requires UnsubscribeMethodName(a) == UnsubscribeMethodName(b)
    ensures a == b
  {
    UnsubscribeNameRoundTrip(a);
    UnsubscribeNameRoundTrip(b);
  }

  /** `Private | HideBySig`, with `Static` added exactly when the add accessor is static. */
  function GetUnsubscribeMethodAttributes(ev: EventDef): (r: MethodAttributes)
    ensures r & MemberAccessMask == Private
    ensures r & HideBySig == HideBySig
    ensures (r & Static != 0) == ev.addMethod.IsStatic()
    ensures r & !(Private | HideBySig | Static) == 0
  {
    var attributes := Private | HideBySig;
    if ev.addMethod.IsStatic() then attributes | Static else attributes
  }
}
