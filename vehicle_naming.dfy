/**
 * Vehicle-name derivation of the unit-list pass in async_code.py: the registration number is
 * the first 'color' profile value with separators stripped, and a "mobile group" code found in
 * the unit's free-text name becomes a prefix; only a prefixed name is written back.
 */
module VehicleNaming {
  import opened Wrappers
  import opened PyBuiltins
  import opened WialonRecords

  // ---------------------------------------------------------------------------------------
  // Registration numbers: re.sub('[_\-|\s]', '', raw)

  /** The characters of the class `[_\-|\s]`. */
  predicate IsSeparator(c: char) {
    c == '_' || c == '-' || c == '|' || IsSpace(c)
  }

  predicate NoSeparators(s: string) {
    forall i :: 0 <= i < |s| ==> !IsSeparator(s[i])
  }

  /** The registration number with every separator removed. */
  function StripSeparators(s: string): (r: string)
    ensures NoSeparators(r)
    ensures |r| <= |s|
  {
    if s == [] then [] else (if IsSeparator(s[0]) then [] else [s[0]]) + StripSeparators(s[1..])
  }

  /** Stripping distributes over concatenation: separators are removed one character at a time. */
  lemma {:induction false} StripConcat(a: string, b: string)
    ensures StripSeparators(a + b) == StripSeparators(a) + StripSeparators(b)
  {
    if a == [] {
      assert a + b == b;
    } else {
      var head := if IsSeparator(a[0]) then [] else [a[0]];
      assert (a + b)[0] == a[0];
      assert (a + b)[1..] == a[1..] + b;
      StripConcat(a[1..], b);
      calc {
        StripSeparators(a + b);
        head + StripSeparators(a[1..] + b);
        head + (StripSeparators(a[1..]) + StripSeparators(b));
        (head + StripSeparators(a[1..])) + StripSeparators(b);
      }
    }
  }

  /** A string without separators is left as it is. */
  lemma {:induction false} StripKeepsClean(s: string)
    requires NoSeparators(s)
    ensures StripSeparators(s) == s
  {
    if s != [] {
      StripKeepsClean(s[1..]);
    }
  }

  /** Stripping is idempotent. */
  lemma StripIdempotent(s: string)
    ensures StripSeparators(StripSeparators(s)) == StripSeparators(s)
  {
    StripKeepsClean(StripSeparators(s));
  }

  /** Nothing but separators is removed: the non-separator characters survive, in order, with their counts. */
  lemma {:induction false} StripKeepsOthers(s: string, c: char)
    requires !IsSeparator(c)
    ensures multiset(StripSeparators(s))[c] == multiset(s)[c]
  {
    if s != [] {
      StripKeepsOthers(s[1..], c);
      assert s == [s[0]] + s[1..];
    }
  }

  // ---------------------------------------------------------------------------------------
  // The mobile-group pattern [мМM][гГ]\s?-\s?\d{1,4}\D

  predicate IsGroupLetterM(c: char) {
    c == 'м' || c == 'М' || c == 'M'
  }

  predicate IsGroupLetterG(c: char) {
    c == 'г' || c == 'Г'
  }

  /** The number of consecutive digits of `s` from position `k`. */
  function DigitRun(s: string, k: nat): (n: nat)
    requires k <= |s|
    ensures k + n <= |s|
    ensures forall j :: k <= j < k + n ==> IsDigit(s[j])
    ensures k + n < |s| ==> !IsDigit(s[k + n])
    decreases |s| - k
  {
    if k < |s| && IsDigit(s[k]) then 1 + DigitRun(s, k + 1) else 0
  }

  /**
   * The regular-expression engine's answer at position `i`: the length of the match there, if any.
   * The optional whitespace is taken exactly when present (a whitespace character is never the
   * hyphen or a digit, so backtracking cannot help), and the digit group matches exactly when the
   * whole run of digits has one to four digits and a non-digit follows it.
   */
  function MatchLength(s: string, i: nat): (r: Option<nat>)
    requires i <= |s|
    ensures r.Some? ==> i + r.value <= |s| && 5 <= r.value <= 10
  {
    if i + 2 > |s| || !IsGroupLetterM(s[i]) || !IsGroupLetterG(s[i + 1]) then None
    else
      var j := if i + 2 < |s| && IsSpace(s[i + 2]) then i + 3 else i + 2;
      if j >= |s| || s[j] != '-' then None
      else
        var k := if j + 1 < |s| && IsSpace(s[j + 1]) then j + 2 else j + 1;
        var n := DigitRun(s, k);
        if 1 <= n <= 4 && k + n < |s| then Some(k + n + 1 - i) else None
  }

  /**
   * The language of the pattern, written out: `s[i..i+len]` is letter M, letter G, an optional
   * whitespace (`w1`), a hyphen, an optional whitespace (`w2`), `d` digits (1 to 4) and a non-digit.
   */
  ghost predicate PatternAt(s: string, i: nat, w1: bool, w2: bool, d: nat, len: nat) {
    var j := i + 2 + (if w1 then 1 else 0);
    var k := j + 1 + (if w2 then 1 else 0);
    && 1 <= d <= 4
    && k + d < |s|
    && len == k + d + 1 - i
    && IsGroupLetterM(s[i]) && IsGroupLetterG(s[i + 1])
    && (w1 ==> IsSpace(s[i + 2]))
    && s[j] == '-'
    && (w2 ==> IsSpace(s[j + 1]))
    && (forall t :: k <= t < k + d ==> IsDigit(s[t]))
    && !IsDigit(s[k + d])
  }

  /** A run of digits followed by a non-digit is measured exactly. */
  lemma {:induction false} DigitRunExact(s: string, k: nat, d: nat)
    requires k + d < |s|
    requires forall t :: k <= t < k + d ==> IsDigit(s[t])
    requires !IsDigit(s[k + d])
    ensures DigitRun(s, k) == d
    decreases d
  {
    if d > 0 {
      DigitRunExact(s, k + 1, d - 1);
    }
  }

  /** What the engine reports is a match of the pattern's language. */
  lemma MatchIsPattern(s: string, i: nat)
    requires i <= |s|
    ensures MatchLength(s, i).Some? ==>
              exists w1: bool, w2: bool, d: nat :: PatternAt(s, i, w1, w2, d, MatchLength(s, i).value)
  {
    if MatchLength(s, i).Some? {
      var w1 := IsSpace(s[i + 2]);
      var j := if w1 then i + 3 else i + 2;
      var w2 := j + 1 < |s| && IsSpace(s[j + 1]);
      var k := if w2 then j + 2 else j + 1;
      var d := DigitRun(s, k);
      assert PatternAt(s, i, w1, w2, d, MatchLength(s, i).value);
    }
  }

  /** Every match of the pattern's language at `i` is what the engine reports there. */
  lemma PatternIsMatch(s: string, i: nat, w1: bool, w2: bool, d: nat, len: nat)
    requires i <= |s|
    requires PatternAt(s, i, w1, w2, d, len)
    ensures MatchLength(s, i) == Some(len)
  {
    var j := i + 2 + (if w1 then 1 else 0);
    var k := j + 1 + (if w2 then 1 else 0);
    assert IsSpace(s[i + 2]) <==> w1;
    assert IsSpace(s[j + 1]) <==> w2;
    DigitRunExact(s, k, d);
  }

  /** Five or more digits after the hyphen never match at that position. */
  lemma FiveDigitsDoNotMatch(s: string, i: nat, w1: bool, w2: bool, k: nat)
    requires k == i + 2 + (if w1 then 1 else 0) + 1 + (if w2 then 1 else 0)
    requires k + 5 <= |s|
    requires forall t :: k <= t < k + 5 ==> IsDigit(s[t])
    ensures forall d: nat, len: nat :: !PatternAt(s, i, w1, w2, d, len)
  {
  }

  /** The leftmost match at or after `i`, as its position and length: the first element `re.findall` returns. */
  function FirstMatchFrom(s: string, i: nat): (m: Option<(nat, nat)>)
    requires i <= |s|
    ensures m.Some? ==> i <= m.value.0 < |s| && m.value.0 + m.value.1 <= |s|
    decreases |s| - i
  {
    if i == |s| then None
    else if MatchLength(s, i).Some? then Some((i, MatchLength(s, i).value))
    else FirstMatchFrom(s, i + 1)
  }

  /** What is found is a match. */
  lemma {:induction false} FirstMatchFromIsMatch(s: string, i: nat)
    requires i <= |s|
    ensures FirstMatchFrom(s, i).Some? ==>
              MatchLength(s, FirstMatchFrom(s, i).value.0) == Some(FirstMatchFrom(s, i).value.1)
    decreases |s| - i
  {
    if i < |s| && MatchLength(s, i).None? {
      FirstMatchFromIsMatch(s, i + 1);
    }
  }

  /** A position before what is found, or any position when nothing is found, does not match. */
  lemma {:induction false} FirstMatchFromSkips(s: string, i: nat, q: nat)
    requires i <= q < |s|
    requires FirstMatchFrom(s, i).None? || q < FirstMatchFrom(s, i).value.0
    ensures MatchLength(s, q).None?
    decreases q - i
  {
    if q > i {
      assert MatchLength(s, i).None?;
      FirstMatchFromSkips(s, i + 1, q);
    }
  }

  /**
   * What is found is a match, with no match between `i` and it; when nothing is found, no
   * position from `i` on matches.
   */
  lemma FirstMatchFromIsLeftmost(s: string, i: nat)
    requires i <= |s|
    ensures FirstMatchFrom(s, i).Some? ==>
              && MatchLength(s, FirstMatchFrom(s, i).value.0) == Some(FirstMatchFrom(s, i).value.1)
              && forall q :: i <= q < FirstMatchFrom(s, i).value.0 ==> MatchLength(s, q).None?
    ensures FirstMatchFrom(s, i).None? ==> forall q :: i <= q < |s| ==> MatchLength(s, q).None?
  {
    FirstMatchFromIsMatch(s, i);
    forall q | i <= q < |s| && (FirstMatchFrom(s, i).None? || q < FirstMatchFrom(s, i).value.0)
      ensures MatchLength(s, q).None?
    {
      FirstMatchFromSkips(s, i, q);
    }
  }

  /** `re.findall(regex, nm)[0].replace(' ', '')`, or None when there is no match. */
  function MobileGroup(nm: string): Option<string> {
    match FirstMatchFrom(nm, 0)
    case Some((p, len)) => Some(RemoveChar(nm[p..p + len], ' '))
    case None => None
  }

  /** There is a group exactly when some position matches. */
  lemma MobileGroupFoundIff(nm: string)
    ensures MobileGroup(nm).None? <==> forall q :: 0 <= q < |nm| ==> MatchLength(nm, q).None?
  {
    FirstMatchFromIsLeftmost(nm, 0);
  }

  /** A group holds no space. */
  lemma MobileGroupHasNoSpace(nm: string)
    requires MobileGroup(nm).Some?
    ensures ' ' !in MobileGroup(nm).value
  {
    var (p, len) := FirstMatchFrom(nm, 0).value;
    RemoveCharCounts(nm[p..p + len], ' ');
  }

  /** The group is the text of the leftmost match, with its spaces dropped. */
  lemma MobileGroupIsLeftmostMatch(nm: string, p: nat, w1: bool, w2: bool, d: nat, len: nat)
    requires p <= |nm| && PatternAt(nm, p, w1, w2, d, len)
    requires forall q :: 0 <= q < p ==> MatchLength(nm, q).None?
    ensures MobileGroup(nm) == Some(RemoveChar(nm[p..p + len], ' '))
  {
    PatternIsMatch(nm, p, w1, w2, d, len);
    FirstMatchIs(nm, 0, p, len);
    MobileGroupOfFirstMatch(nm, p, len);
  }

  /** The group is read off the leftmost match. */
  lemma MobileGroupOfFirstMatch(nm: string, p: nat, len: nat)
    requires p + len <= |nm| && FirstMatchFrom(nm, 0) == Some((p, len))
    ensures MobileGroup(nm) == Some(RemoveChar(nm[p..p + len], ' '))
  {
  }

  /** A match with none between `i` and it is the leftmost one from `i`. */
  lemma {:induction false} FirstMatchIs(nm: string, i: nat, p: nat, len: nat)
    requires i <= p <= |nm| && MatchLength(nm, p) == Some(len)
    requires forall q :: i <= q < p ==> MatchLength(nm, q).None?
    ensures FirstMatchFrom(nm, i) == Some((p, len))
    decreases p - i
  {
    if i < p {
      assert MatchLength(nm, i).None?;
      FirstMatchIs(nm, i + 1, p, len);
    } else {
      assert MatchLength(nm, i).Some?;
    }
  }

  /** Removing a character from six consecutive pieces, three of which do not hold it. */
  lemma RemoveFromPieces(letters: string, ws1: string, dash: string, ws2: string, digits: string,
                         close: string, c: char)
    requires c !in letters && c !in dash && c !in digits
    ensures RemoveChar(letters + ws1 + dash + ws2 + digits + close, c)
            == letters + RemoveChar(ws1, c) + dash + RemoveChar(ws2, c) + digits + RemoveChar(close, c)
  {
    RemoveCharConcat(letters + ws1 + dash + ws2 + digits, close, c);
    RemoveCharConcat(letters + ws1 + dash + ws2, digits, c);
    RemoveCharConcat(letters + ws1 + dash, ws2, c);
    RemoveCharConcat(letters + ws1, dash, c);
    RemoveCharConcat(letters, ws1, c);
    RemoveCharAbsent(letters, c);
    RemoveCharAbsent(dash, c);
    RemoveCharAbsent(digits, c);
  }

  /** A stretch of text cut at five points into six consecutive pieces. */
  lemma SliceIntoPieces(s: string, p: nat, j: nat, k: nat, e: nat)
    requires p + 2 <= j < k <= e < |s|
    ensures s[p..e + 1] == s[p..p + 2] + s[p + 2..j] + s[j..j + 1] + s[j + 1..k] + s[k..e] + [s[e]]
  {
    assert s[p..e + 1] == s[p..e] + [s[e]];
    assert s[p..e] == s[p..k] + s[k..e];
    assert s[p..k] == s[p..j + 1] + s[j + 1..k];
    assert s[p..j + 1] == s[p..j] + s[j..j + 1];
    assert s[p..j] == s[p..p + 2] + s[p + 2..j];
  }

  /** Removing a character from such a stretch, when the first, third and fifth pieces do not hold it. */
  lemma RemoveFromSlices(s: string, p: nat, j: nat, k: nat, e: nat, c: char)
    requires p + 2 <= j < k <= e < |s|
    requires s[p] != c && s[p + 1] != c && s[j] != c
    requires forall t :: k <= t < e ==> s[t] != c
    ensures RemoveChar(s[p..e + 1], c)
            == s[p..p + 2] + RemoveChar(s[p + 2..j], c) + s[j..j + 1] + RemoveChar(s[j + 1..k], c)
               + s[k..e] + RemoveChar([s[e]], c)
  {
    SliceIntoPieces(s, p, j, k, e);
    assert c !in s[p..p + 2] by {
      assert s[p..p + 2] == [s[p], s[p + 1]];
    }
    assert c !in s[j..j + 1] by {
      assert s[j..j + 1] == [s[j]];
    }
    assert c !in s[k..e] by {
      forall t | 0 <= t < e - k ensures s[k..e][t] != c {
        assert s[k..e][t] == s[k + t];
      }
    }
    RemoveFromPieces(s[p..p + 2], s[p + 2..j], s[j..j + 1], s[j + 1..k], s[k..e], [s[e]], c);
  }

  /**
   * What dropping the spaces leaves of a match: the two letters, each optional whitespace unless
   * it is a plain space (`replace(' ', '')` leaves a tab in place), the hyphen, the digits, and
   * the closing non-digit unless it is a plain space.
   */
  lemma MatchWithoutSpaces(nm: string, p: nat, w1: bool, w2: bool, d: nat, len: nat)
    requires p <= |nm| && PatternAt(nm, p, w1, w2, d, len)
    ensures var j := p + 2 + (if w1 then 1 else 0);
            var k := j + 1 + (if w2 then 1 else 0);
            RemoveChar(nm[p..p + len], ' ')
            == nm[p..p + 2] + RemoveChar(nm[p + 2..j], ' ') + "-" + RemoveChar(nm[j + 1..k], ' ')
               + nm[k..k + d] + RemoveChar([nm[k + d]], ' ')
  {
    var j := p + 2 + (if w1 then 1 else 0);
    var k := j + 1 + (if w2 then 1 else 0);
    assert p + len == k + d + 1;
    RemoveFromSlices(nm, p, j, k, k + d, ' ');
    assert nm[j..j + 1] == "-";
  }

  /** The example of the design notes: the name "МГ-5 " yields the group "МГ-5". */
  lemma MobileGroupExample(nm: string)
    requires nm == "МГ-5 "
    ensures MobileGroup(nm) == Some("МГ-5")
  {
    assert MobileGroup(nm) == Some(RemoveChar(nm[0..5], ' ')) by {
      assert nm[0] == 'М' && nm[1] == 'Г' && nm[2] == '-' && nm[3] == '5' && nm[4] == ' ';
      assert PatternAt(nm, 0, false, false, 1, 5);
      MobileGroupIsLeftmostMatch(nm, 0, false, false, 1, 5);
    }
    assert RemoveChar(nm[0..5], ' ') == "МГ-5" by {
      var group, close := nm[..4], nm[4..];
      assert nm[0..5] == group + close;
      assert RemoveChar(close, ' ') == [] by {
        assert close == [' '] && close[1..] == [];
      }
      calc {
        RemoveChar(nm[0..5], ' ');
        RemoveChar(group + close, ' ');
        { RemoveCharConcat(group, close, ' '); }
        RemoveChar(group, ' ') + RemoveChar(close, ' ');
        { RemoveCharAbsent(group, ' '); }
        group + [];
        "МГ-5";
      }
    }
  }

  // ---------------------------------------------------------------------------------------
  // The per-unit decision and the pass over all units

  /** The name derived for one unit, and whether it is written back with `update_car_name`. */
  datatype NameDecision = NameDecision(name: string, update: bool)

  /** Derivation for one unit; None when the unit has no 'color' field and is skipped. */
  function DeriveName(u: WialonUnit): (r: Option<NameDecision>)
    ensures r.None? <==> FirstFieldValue(u.pflds, "color").None?
    ensures r.Some? ==> (r.value.update <==> MobileGroup(u.nm).Some?)
    ensures r.Some? && !r.value.update ==> r.value.name == StripSeparators(FirstFieldValue(u.pflds, "color").value)
    ensures r.Some? && r.value.update ==>
              r.value.name == MobileGroup(u.nm).value + " " + StripSeparators(FirstFieldValue(u.pflds, "color").value)
  {
    match FirstFieldValue(u.pflds, "color")
    case None => None
    case Some(raw) =>
      var reg := StripSeparators(raw);
      match MobileGroup(u.nm)
      case Some(group) => Some(NameDecision(group + " " + reg, true))
      case None => Some(NameDecision(reg, false))
  }

  /** Deriving again from the derived registration number changes nothing. */
  lemma DeriveNameIdempotent(u: WialonUnit)
    requires DeriveName(u).Some? && !DeriveName(u).value.update
    ensures StripSeparators(DeriveName(u).value.name) == DeriveName(u).value.name
  {
    StripIdempotent(FirstFieldValue(u.pflds, "color").value);
  }

  /** The `update_car_name(id, name)` calls the pass makes, in order. */
  function NameUpdates(units: seq<WialonUnit>): (r: seq<(int, string)>)
    ensures |r| <= |units|
  {
    if units == [] then []
    else
      var prev := NameUpdates(units[..|units| - 1]);
      var u := units[|units| - 1];
      match DeriveName(u)
      case Some(NameDecision(name, true)) => prev + [(u.id, name)]
      case _ => prev
  }

  /** The unit's name is written back: it has a 'color' field and its free-text name holds a mobile group. */
  predicate UpdatesName(u: WialonUnit) {
    DeriveName(u).Some? && DeriveName(u).value.update
  }

  /** One more unit adds its call, if any, at the end. */
  lemma NameUpdatesStep(units: seq<WialonUnit>, i: nat)
    requires i < |units|
    ensures NameUpdates(units[..i + 1])
            == NameUpdates(units[..i]) + (if UpdatesName(units[i]) then [(units[i].id, DeriveName(units[i]).value.name)] else [])
  {
    assert units[..i + 1][..i] == units[..i];
    assert units[..i + 1][i] == units[i];
  }

  /** The calls for the first units are the first calls. */
  lemma {:induction false} NameUpdatesPrefix(units: seq<WialonUnit>, j: nat)
    requires j <= |units|
    ensures NameUpdates(units[..j]) <= NameUpdates(units)
    decreases |units| - j
  {
    if j < |units| {
      var init := units[..|units| - 1];
      assert units[..j] == init[..j];
      NameUpdatesPrefix(init, j);
    } else {
      assert units[..j] == units;
    }
  }

  /** Call `k` of the pass is the call for unit `i`: its id and derived name, right after the calls for the units before it. */
  ghost predicate CallOfUnit(units: seq<WialonUnit>, k: nat, i: nat)
    requires k < |NameUpdates(units)| && i < |units|
  {
    && units[i].id == NameUpdates(units)[k].0
    && DeriveName(units[i]) == Some(NameDecision(NameUpdates(units)[k].1, true))
    && |NameUpdates(units[..i])| == k
  }

  /** A call of the first units is still the call for the same unit once more units follow. */
  lemma CallOfUnitExtends(units: seq<WialonUnit>, k: nat, i: nat)
    requires 0 < |units| && i < |units| - 1 && k < |NameUpdates(units[..|units| - 1])|
    requires CallOfUnit(units[..|units| - 1], k, i)
    ensures k < |NameUpdates(units)| && CallOfUnit(units, k, i)
  {
    var init := units[..|units| - 1];
    NameUpdatesPrefix(units, |units| - 1);
    assert NameUpdates(units)[k] == NameUpdates(init)[k];
    assert units[i] == init[i] && units[..i] == init[..i];
  }

  /** A call made for the last unit is the call for that unit. */
  lemma CallOfLastUnit(units: seq<WialonUnit>, k: nat)
    requires 0 < |units| && |NameUpdates(units[..|units| - 1])| <= k < |NameUpdates(units)|
    ensures CallOfUnit(units, k, |units| - 1)
  {
    var last := |units| - 1;
    NameUpdatesStep(units, last);
    assert units[..last + 1] == units;
  }

  /** Every call is the call for a listed unit whose free-text name holds a mobile group. */
  lemma {:induction false} NameUpdatesFromMatchingUnits(units: seq<WialonUnit>, k: nat)
    requires k < |NameUpdates(units)|
    ensures exists i :: 0 <= i < |units| && CallOfUnit(units, k, i)
  {
    var last := |units| - 1;
    if k < |NameUpdates(units[..last])| {
      NameUpdatesFromMatchingUnits(units[..last], k);
      var i :| 0 <= i < last && CallOfUnit(units[..last], k, i);
      CallOfUnitExtends(units, k, i);
    } else {
      CallOfLastUnit(units, k);
    }
  }

  /** Conversely, every unit whose name holds a mobile group gets its call, right after the calls for the units before it. */
  lemma MatchingUnitUpdated(units: seq<WialonUnit>, i: nat)
    requires i < |units| && UpdatesName(units[i])
    ensures |NameUpdates(units[..i])| < |NameUpdates(units)|
    ensures NameUpdates(units)[|NameUpdates(units[..i])|] == (units[i].id, DeriveName(units[i]).value.name)
  {
    NameUpdatesPrefix(units, i + 1);
    NameUpdatesStep(units, i);
  }

  /** The calls follow the unit order: a unit's call comes before the calls of every later unit. */
  lemma UpdatesInUnitOrder(units: seq<WialonUnit>, i: nat, j: nat)
    requires i < j <= |units| && UpdatesName(units[i])
    ensures |NameUpdates(units[..i])| < |NameUpdates(units[..j])|
  {
    NameUpdatesGrow(units, i);
    NameUpdatesMonotone(units, i + 1, j);
  }

  /** More units never make fewer calls. */
  lemma NameUpdatesMonotone(units: seq<WialonUnit>, i: nat, j: nat)
    requires i <= j <= |units|
    ensures |NameUpdates(units[..i])| <= |NameUpdates(units[..j])|
  {
    NameUpdatesPrefix(units[..j], i);
    assert units[..j][..i] == units[..i];
  }

  /** A unit whose name is written back adds one call. */
  lemma NameUpdatesGrow(units: seq<WialonUnit>, i: nat)
    requires i < |units| && UpdatesName(units[i])
    ensures |NameUpdates(units[..i])| < |NameUpdates(units[..i + 1])|
  {
    NameUpdatesStep(units, i);
  }

  /** The loop of `run_code` over the unit list; the returned sequence is its `update_car_name` calls. */
  method RunNaming(units: seq<WialonUnit>) returns (updates: seq<(int, string)>)
    ensures updates == NameUpdates(units)
  {
    updates := [];
    var i := 0;
    while i < |units|
      invariant 0 <= i <= |units|
      invariant updates == NameUpdates(units[..i])
    {
      var u := units[i];
      assert units[..i + 1][..i] == units[..i];
      var regs := FirstFieldValue(u.pflds, "color");
      if regs.Some? {
        var reg := StripSeparators(regs.value);
        var group := MobileGroup(u.nm);
        if group.Some? {
          updates := updates + [(u.id, group.value + " " + reg)];
        }
      }
      i := i + 1;
    }
    assert units[..|units|] == units;
  }
}
