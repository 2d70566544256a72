/**
 Which types the weaver processes: those that declare events, are not
 interfaces, and carry the marker attribute, matched by exact full name.
 */
module TypeDefinitionExtensions {
  import opened Cecil

  const WeakEventsAttributeName: string := "WeakEvents.ImplementWeakEventsAttribute"

  predicate IsMarker(a: CustomAttribute)
  {
    FullName(a.attributeType) == WeakEventsAttributeName
  }

  /** `CustomAttributes.Any(...)` over the marker test. */
  function AnyMarker(attrs: seq<CustomAttribute>): (r: bool)
    ensures r <==> exists i :: 0 <= i < |attrs| && IsMarker(attrs[i])
  {
    if attrs == [] then false
    else IsMarker(attrs[0]) || AnyMarker(attrs[1..])
  }

  function HasWeakEventAttribute(t: TypeDef): (r: bool)
    ensures r <==> exists i :: 0 <= i < |t.customAttributes| && IsMarker(t.customAttributes[i])
  {
    AnyMarker(t.customAttributes)
  }

  function IsTypeToProcess(t: TypeDef): (r: bool)
    ensures r <==> |t.events| > 0 && !t.isInterface
                   && exists i :: 0 <= i < |t.customAttributes| && IsMarker(t.customAttributes[i])
  {
    |t.events| > 0 && !t.isInterface && HasWeakEventAttribute(t)
  }

  /** A type without events is never processed, whatever its attributes. */
  lemma NoEventsNotProcessed(t: TypeDef)
    requires |t.events| == 0
    ensures !IsTypeToProcess(t)
  {
  }

  /** An interface is never processed. */
  lemma InterfaceNotProcessed(t: TypeDef)
    requires t.isInterface
    ensures !IsTypeToProcess(t)
  {
  }

  /** One marker among any other attributes, before or after it, is enough. */
  lemma {:induction false} OneMarkerSuffices(before: seq<CustomAttribute>, a: CustomAttribute, after: seq<CustomAttribute>)
    requires IsMarker(a)
    ensures AnyMarker(before + [a] + after)
  {
    if before == [] {
      assert (before + [a] + after)[0] == a;
    } else {
      assert (before + [a] + after)[1..] == before[1..] + [a] + after;
      OneMarkerSuffices(before[1..], a, after);
    }
  }

  /** The match is exact: an attribute of any named type other than the
      marker, including every variant of the marker's name in another letter
      case, does not count. */
  lemma MatchIsCaseSensitive(n: string)
    requires n != WeakEventsAttributeName
    ensures !AnyMarker([CustomAttribute(Named(n))])
  {
  }

  /** Two such case variants, spelt out. */
  lemma CaseVariantsDoNotMatch()
    ensures !AnyMarker([CustomAttribute(Named("weakevents.implementweakeventsattribute")),
                        CustomAttribute(Named("WeakEvents.IMPLEMENTWEAKEVENTSATTRIBUTE"))])
  {
    var attrs := [CustomAttribute(Named("weakevents.implementweakeventsattribute")),
                  CustomAttribute(Named("WeakEvents.IMPLEMENTWEAKEVENTSATTRIBUTE"))];
    assert !IsMarker(attrs[0]) by { assert FullName(attrs[0].attributeType)[0] != WeakEventsAttributeName[0]; }
    assert !IsMarker(attrs[1]) by { assert FullName(attrs[1].attributeType)[12] != WeakEventsAttributeName[12]; }
  }

  /** A generic instance of the marker's name is a different full name and does not count. */
  lemma {:induction false} GenericMarkerDoesNotMatch(arg: TypeRef)
    ensures !IsMarker(CustomAttribute(GenericInstance(Named(WeakEventsAttributeName), arg)))
  {
    assert FullName(Named(WeakEventsAttributeName)) == WeakEventsAttributeName;
    var n := FullName(GenericInstance(Named(WeakEventsAttributeName), arg));
    assert |n| > |WeakEventsAttributeName|;
  }
}
