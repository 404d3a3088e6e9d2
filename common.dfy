/** Values shared by every part of the model: optional values, the error
    results Go functions return beside their value, and first-match search. */
module Common {

  datatype Option<T> = None | Some(value: T)

  /** An error value as Go returns it; only its text is observable. */
  datatype Error = Error(message: string)

  /** A Go `(value, error)` pair where exactly one side is meaningful. */
  datatype Result<T> = Ok(value: T) | Err(error: Error)

  /** The index of the first element of `s` satisfying `p`, or -1 when none
      does: the shape of every `for ... { if ... { ...; break } }` scan in the
      source. */
  function FirstMatch<T>(s: seq<T>, p: T -> bool): (r: int)
    ensures -1 <= r < |s|
    ensures r >= 0 ==> p(s[r])
    ensures forall i :: 0 <= i < |s| && (r < 0 || i < r) ==> !p(s[i])
  {
    if |s| == 0 then -1
    else if p(s[0]) then 0
    else
      var k := FirstMatch(s[1..], p);
      if k < 0 then -1 else k + 1
  }

  /** One step of a first-match scan: with no match among the first `i`
      elements, element `i` either is the first match or extends the run. */
  lemma FirstMatchStep<T>(s: seq<T>, i: nat, p: T -> bool)
    requires i < |s| && FirstMatch(s[..i], p) < 0
    ensures !p(s[i]) ==> FirstMatch(s[..i + 1], p) < 0
    ensures p(s[i]) ==> FirstMatch(s, p) == i
  {
    assert forall j :: 0 <= j < i ==> s[..i][j] == s[j];
    assert forall j :: 0 <= j <= i ==> s[..i + 1][j] == s[j];
  }

  /** A scan that found nothing in the whole sequence. */
  lemma FirstMatchNone<T>(s: seq<T>, p: T -> bool)
    requires FirstMatch(s[..|s|], p) < 0
    ensures FirstMatch(s, p) < 0
  {
    assert s[..|s|] == s;
  }
}
