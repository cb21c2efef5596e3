/**
  Session id resolution for the stream-opening GET: a non-empty `sessionId` query
  value is taken verbatim; otherwise an id `<random fragment>-<base-36 clock>` is
  generated. The random text (Math.random().toString(36)) and the clock (Date.now())
  are parameters.
 */
module SessionIds {
  import opened Wrappers
  import opened Base36

  const Separator: char := '-'

  /** String.prototype.substring: both bounds clamped to [0, |s|], swapped if reversed. */
  function JsSubstring(s: string, start: int, end: int): (r: string)
    ensures |r| <= |s|
  {
    var a := if start < 0 then 0 else if start > |s| then |s| else start;
    var b := if end < 0 then 0 else if end > |s| then |s| else end;
    if a <= b then s[a..b] else s[b..a]
  }

  /** The random part of a generated id: characters 2 to 14 of the random text. */
  function RandomFragment(randomText: string): (r: string)
    ensures |r| <= 13
    ensures |randomText| >= 15 ==> r == randomText[2..15]
  {
    JsSubstring(randomText, 2, 15)
  }

  lemma RandomFragmentSlice(randomText: string)
    ensures var n := |randomText|;
      RandomFragment(randomText) == randomText[(if n < 2 then n else 2)..(if n < 15 then n else 15)]
    ensures |RandomFragment(randomText)| <= 13
  {
  }

  /** The random text of Math.random() is "0." followed by digits: the fragment skips "0.". */
  lemma RandomFragmentSkipsLeadingZeroPoint(digits: string)
    ensures RandomFragment("0." + digits) == digits[..if |digits| < 13 then |digits| else 13]
  {
    var r := "0." + digits;
    var k := if |digits| < 13 then |digits| else 13;
    assert r[2..2 + k] == digits[..k];
  }

  /** `<fragment>-<base-36 clock>`; the clock can be read back from the id. */
  function GeneratedId(randomText: string, now: nat): (id: string)
    ensures |id| > |RandomFragment(randomText)| && id[|RandomFragment(randomText)|] == Separator
    ensures id[..|RandomFragment(randomText)|] == RandomFragment(randomText)
    ensures ClockOf(id) == Some(now)
  {
    var digits := ToBase36(now);
    NoSeparatorInDigits(digits);
    SuffixAfterJoin(RandomFragment(randomText), digits);
    FromToBase36(now);
    RandomFragment(randomText) + [Separator] + digits
  }

  /**
    The id the GET handler uses. A query value counts as supplied only when present and
    non-empty: the empty string is falsy in the `||` in the GET handler.
   */
  function ResolveSessionId(query: Option<string>, randomText: string, now: nat): (id: string)
    ensures id != []
    ensures query.Some? && query.value != [] ==> id == query.value
  {
    if query.Some? && query.value != [] then query.value else GeneratedId(randomText, now)
  }

  /** The text after the last separator, if the string has one. */
  function SuffixAfterLastSeparator(s: string): Option<string>
    decreases |s|
  {
    if s == [] then None
    else if s[|s| - 1] == Separator then Some([])
    else match SuffixAfterLastSeparator(s[..|s| - 1])
      case None => None
      case Some(t) => Some(t + [s[|s| - 1]])
  }

  /** The clock value a generated id carries, read back from its base-36 tail. */
  function ClockOf(id: string): Option<nat> {
    match SuffixAfterLastSeparator(id)
    case Some(t) => if Canonical(t) then Some(FromBase36(t)) else None
    case None => None
  }

  lemma {:induction false} SuffixAfterJoin(a: string, b: string)
    requires Separator !in b
    ensures SuffixAfterLastSeparator(a + [Separator] + b) == Some(b)
    decreases |b|
  {
    var s := a + [Separator] + b;
    if b == [] {
      assert s[|s| - 1] == Separator;
    } else {
      var b' := b[..|b| - 1];
      assert s[..|s| - 1] == a + [Separator] + b';
      assert b[|b| - 1] in b;
      SuffixAfterJoin(a, b');
      assert b' + [b[|b| - 1]] == b;
    }
  }

  lemma NoSeparatorInDigits(s: string)
    requires AllDigits(s)
    ensures Separator !in s
  {
  }

  /** A generated id is `<fragment>-<clock>` and the clock can be read back from it. */
  lemma GeneratedIdForm(query: Option<string>, randomText: string, now: nat)
    requires query.None? || query.value == []
    ensures ResolveSessionId(query, randomText, now) == RandomFragment(randomText) + "-" + ToBase36(now)
    ensures ClockOf(ResolveSessionId(query, randomText, now)) == Some(now)
  {
  }

  /**
    Two generated ids are equal only if both their fragments and their clock values are,
    whatever characters the random texts hold.
   */
  lemma GeneratedIdInjective(r1: string, t1: nat, r2: string, t2: nat)
    requires GeneratedId(r1, t1) == GeneratedId(r2, t2)
    ensures RandomFragment(r1) == RandomFragment(r2) && t1 == t2
  {
    var d1, d2 := ToBase36(t1), ToBase36(t2);
    NoSeparatorInDigits(d1);
    NoSeparatorInDigits(d2);
    SuffixAfterJoin(RandomFragment(r1), d1);
    SuffixAfterJoin(RandomFragment(r2), d2);
    assert d1 == d2;
    ToBase36Injective(t1, t2);
    var id := GeneratedId(r1, t1);
    assert RandomFragment(r1) == id[..|id| - |d1| - 1];
    assert RandomFragment(r2) == id[..|id| - |d2| - 1];
  }
}
