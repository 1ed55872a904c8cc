/** The string-based reader of gradient texts in src/GradientEditor/constants.ts:
    `parseGradient` (87-113) and `parseStops` (115-133). Their regular
    expressions are written out as explicit scans that follow the engine's
    backtracking: the leftmost start wins, and at that start the greedy
    quantifiers give back characters one at a time until the rest matches. */
module Legacy {
  import opened Text
  import opened Numbers
  import opened Stops

  /** What `/(.*)\s+(\d+)?%/` captures (constants.ts:123): the color text and,
      when the optional group took part, its digits. */
  datatype StopMatch = StopMatch(color: string, digits: Option<string>)

  /** The captured digits, if any, are a decimal numeral. */
  predicate Captured(m: StopMatch) {
    m.digits.Some? ==> |m.digits.value| > 0 && AllIn(m.digits.value, Digits)
  }

  /** `\s+(\d+)?%` at `q`. It can only match with both quantifiers taking all
      they can: a shorter `\s+` leaves a space where a digit or `%` must be, a
      shorter `\d+` leaves a digit where `%` must be. */
  function PercentAt(t: string, q: nat): (r: Option<Option<string>>)
    requires q <= |t|
    ensures r.Some? ==> q < |t| && IsSpace(t[q])
    ensures r.Some? ==> Captured(StopMatch("", r.value))
  {
    if q < |t| && IsSpace(t[q]) then
      var w := q + Run(t[q..], Spaces);
      var e := w + Run(t[w..], Digits);
      if e < |t| && t[e] == '%' then
        assert forall k :: 0 <= k < e - w ==> t[w..e][k] == t[w..][k];
        Some(if e > w then Some(t[w..e]) else None)
      else None
    else None
  }

  /** `(.*)` begun at `i` and stretched to `q` gives back one character at a
      time: the longest stretch after which `\s+(\d+)?%` matches. */
  function BackOff(t: string, i: nat, q: nat): (r: Option<(nat, Option<string>)>)
    requires i <= q <= |t|
    ensures r.Some? ==> i <= r.value.0 <= q && PercentAt(t, r.value.0) == Some(r.value.1)
    decreases q
  {
    match PercentAt(t, q)
    case Some(d) => Some((q, d))
    case None => if q == i then None else BackOff(t, i, q - 1)
  }

  /** The leftmost match of `/(.*)\s+(\d+)?%/` that starts at `i` or later. */
  function MatchStopFrom(t: string, i: nat): (r: Option<StopMatch>)
    requires i <= |t|
    ensures r.Some? ==> Captured(r.value) && AllIn(r.value.color, NotLineBreak)
    decreases |t| - i
  {
    var hi := i + Run(t[i..], NotLineBreak);
    match BackOff(t, i, hi)
    case Some((q, d)) =>
      assert forall k :: 0 <= k < q - i ==> t[i..q][k] == t[i..][k];
      Some(StopMatch(t[i..q], d))
    case None => if i == |t| then None else MatchStopFrom(t, i + 1)
  }

  function MatchStop(t: string): (r: Option<StopMatch>)
    ensures r.Some? ==> Captured(r.value) && AllIn(r.value.color, NotLineBreak)
  {
    MatchStopFrom(t, 0)
  }

  /** The matches of the trimmed segments that match, in order (constants.ts:121-124). */
  function Matches(segments: seq<string>): (ms: seq<StopMatch>)
    ensures |ms| <= |segments|
    ensures forall k :: 0 <= k < |ms| ==> Captured(ms[k])
    decreases |segments|
  {
    if |segments| == 0 then []
    else
      match MatchStop(Trim(segments[0]))
      case None => Matches(segments[1..])
      case Some(m) => [m] + Matches(segments[1..])
  }

  /** A segment whose trimmed text matches the stop pattern. */
  predicate StopSegment(segment: string) {
    MatchStop(Trim(segment)).Some?
  }

  /** Every segment yields a stop exactly when every segment matches. */
  lemma {:induction false} MatchesAll(segments: seq<string>)
    ensures |Matches(segments)| == |segments| <==> forall k :: 0 <= k < |segments| ==> StopSegment(segments[k])
    decreases |segments|
  {
    if |segments| > 0 {
      MatchesAll(segments[1..]);
      assert forall k :: 1 <= k < |segments| ==> segments[1..][k - 1] == segments[k];
    }
  }

  /** One segment yields its match, or nothing when it does not match. */
  lemma MatchesOne(segment: string)
    ensures Matches([segment]) == match MatchStop(Trim(segment)) case Some(m) => [m] case None => []
  {
    assert [segment][1..] == [];
  }

  /** The matches of two runs of segments are those of the first run, then
      those of the second: with `MatchesOne`, each matching segment gives
      exactly its match, in the segments' order. */
  lemma {:induction false} MatchesConcat(a: seq<string>, b: seq<string>)
    ensures Matches(a + b) == Matches(a) + Matches(b)
    decreases |a|
  {
    if |a| > 0 {
      assert (a + b)[0] == a[0] && (a + b)[1..] == a[1..] + b;
      MatchesConcat(a[1..], b);
    } else {
      assert a + b == b;
    }
  }

  /** A match's position: `parseInt` of its digits, or else the current one. */
  function PositionOf(m: StopMatch, current: nat): nat
    requires Captured(m)
  {
    match m.digits
    case Some(ds) => DigitsValue(ds)
    case None => current
  }

  /** The stops pushed for a list of matches (constants.ts:125-129): each
      position becomes the current one for the next match, and the ids are
      handed out in order from `nextId` (in place of `uuid()`). */
  function Place(ms: seq<StopMatch>, current: nat, nextId: nat): seq<Stop>
    requires forall k :: 0 <= k < |ms| ==> Captured(ms[k])
    decreases |ms|
  {
    if |ms| == 0 then []
    else
      var p := PositionOf(ms[0], current);
      [Stop(nextId, ms[0].color, Finite(p as real))] + Place(ms[1..], p, nextId + 1)
  }

  /** What `parseStops` returns for `text`. */
  function ParsedStops(text: string, firstId: nat): seq<Stop> {
    Place(Matches(Split(text, ", ")), 0, firstId)
  }

  /** The state of the loop of `parseStops`: the stops pushed so far, the
      current position, and the id the next stop receives. */
  datatype LoopState = LoopState(stops: seq<Stop>, current: nat, nextId: nat)

  /** One turn of that loop on one segment (constants.ts:122-129). */
  function Step(segment: string, st: LoopState): LoopState {
    match MatchStop(Trim(segment))
    case None => st
    case Some(m) =>
      var p := PositionOf(m, st.current);
      LoopState(st.stops + [Stop(st.nextId, m.color, Finite(p as real))], p, st.nextId + 1)
  }

  /** The loop run from segment `i` on, in the state `st` it has reached
      there: what it returns. */
  function Pushed(colors: seq<string>, i: nat, st: LoopState): seq<Stop>
    requires i <= |colors|
    decreases |colors| - i
  {
    if i == |colors| then st.stops else Pushed(colors, i + 1, Step(colors[i], st))
  }

  /** The body of the loop of `parseStops` (constants.ts:122-129): trim the
      segment and, when the pattern matches it, push a stop at the captured
      position or, without one, at the current position. */
  method PushStop(segment: string, stops: seq<Stop>, current: nat, nextId: nat)
    returns (stops': seq<Stop>, current': nat, nextId': nat)
    ensures LoopState(stops', current', nextId') == Step(segment, LoopState(stops, current, nextId))
  {
    stops', current', nextId' := stops, current, nextId;
    var colorStop := Trim(segment);
    var m := MatchStop(colorStop);
    if m.Some? {
      var position := PositionOf(m.value, current);
      stops' := stops + [Stop(nextId, m.value.color, Finite(position as real))];
      current' := position;
      nextId' := nextId + 1;
    }
  }

  /** `parseStops` (constants.ts:115-133): split on `", "`, and push a stop for
      every trimmed segment the pattern matches. */
  method ParseStops(text: string, firstId: nat) returns (stops: seq<Stop>)
    ensures stops == ParsedStops(text, firstId)
  {
    var colors := Split(text, ", ");
    stops := [];
    var current: nat := 0;
    var nextId := firstId;
    var i := 0;
    while i < |colors|
      invariant 0 <= i <= |colors|
      invariant Pushed(colors, i, LoopState(stops, current, nextId)) == Pushed(colors, 0, LoopState([], 0, firstId))
    {
      stops, current, nextId := PushStop(colors[i], stops, current, nextId);
      i := i + 1;
    }
    PushedPlace(colors, 0, LoopState([], 0, firstId));
    assert colors[0..] == colors;
    AppendEmpty([], Place(Matches(colors), 0, firstId));
  }

  /** Running the loop on from segment `i` appends the stops placed for the
      matches of the remaining segments. */
  lemma {:induction false} PushedPlace(colors: seq<string>, i: nat, st: LoopState)
    requires i <= |colors|
    ensures Pushed(colors, i, st) == st.stops + Place(Matches(colors[i..]), st.current, st.nextId)
    decreases |colors| - i
  {
    if i == |colors| {
      assert colors[i..] == [];
      AppendEmpty(st.stops, []);
    } else {
      match MatchStop(Trim(colors[i]))
      case None =>
        PushedPlace(colors, i + 1, st);
        MatchesStep(colors, i);
      case Some(m) =>
        var p := PositionOf(m, st.current);
        var x := Stop(st.nextId, m.color, Finite(p as real));
        var next := LoopState(st.stops + [x], p, st.nextId + 1);
        assert Step(colors[i], st) == next;
        PushedPlace(colors, i + 1, next);
        MatchesStep(colors, i);
        var rest := Place(Matches(colors[i + 1..]), p, st.nextId + 1);
        PlaceCons(m, Matches(colors[i + 1..]), st.current, st.nextId);
        AppendAssoc(st.stops, [x], rest);
    }
  }

  lemma AppendEmpty(a: seq<Stop>, b: seq<Stop>)
    ensures [] + b == b && a + [] == a
  {
  }

  lemma AppendAssoc(a: seq<Stop>, b: seq<Stop>, c: seq<Stop>)
    ensures a + (b + c) == (a + b) + c
  {
  }

  lemma MatchesStep(segments: seq<string>, i: nat)
    requires i < |segments|
    ensures MatchStop(Trim(segments[i])).None? ==> Matches(segments[i..]) == Matches(segments[i + 1..])
    ensures MatchStop(Trim(segments[i])).Some? ==>
      Matches(segments[i..]) == [MatchStop(Trim(segments[i])).value] + Matches(segments[i + 1..])
  {
    assert segments[i..][1..] == segments[i + 1..];
  }

  lemma PlaceCons(m: StopMatch, rest: seq<StopMatch>, current: nat, nextId: nat)
    requires Captured(m) && forall k :: 0 <= k < |rest| ==> Captured(rest[k])
    ensures Place([m] + rest, current, nextId)
      == [Stop(nextId, m.color, Finite(PositionOf(m, current) as real))] + Place(rest, PositionOf(m, current), nextId + 1)
  {
    assert ([m] + rest)[1..] == rest;
  }

  /** Every pushed stop comes from one match, in order, with consecutive ids;
      its position is the match's number, or, when the match has no number,
      the previous stop's position (the start value for the first). */
  lemma {:induction false} CarryForward(ms: seq<StopMatch>, current: nat, nextId: nat)
    requires forall k :: 0 <= k < |ms| ==> Captured(ms[k])
    ensures var r := Place(ms, current, nextId);
      |r| == |ms|
      && (forall k :: 0 <= k < |r| ==> r[k].id == nextId + k && r[k].color == ms[k].color)
      && (forall k :: 0 <= k < |r| && ms[k].digits.Some? ==>
            r[k].position == Finite(DigitsValue(ms[k].digits.value) as real))
      && (forall k :: 0 <= k < |r| && ms[k].digits.None? ==>
            r[k].position == if k == 0 then Finite(current as real) else r[k - 1].position)
    decreases |ms|
  {
    if |ms| > 0 {
      var p := PositionOf(ms[0], current);
      var rest := Place(ms[1..], p, nextId + 1);
      CarryForward(ms[1..], p, nextId + 1);
      var r := Place(ms, current, nextId);
      assert r == [Stop(nextId, ms[0].color, Finite(p as real))] + rest;
      assert forall k :: 1 <= k < |r| ==> r[k] == rest[k - 1];
    }
  }

  /** Every parsed position is a whole number of at least 0. */
  lemma ParsedPositions(text: string, firstId: nat)
    ensures forall k :: 0 <= k < |ParsedStops(text, firstId)| ==>
      var p := ParsedStops(text, firstId)[k].position;
      p.Finite? && IsInteger(p.value) && p.value >= 0.0
  {
    PlacePositions(Matches(Split(text, ", ")), 0, firstId);
  }

  lemma {:induction false} PlacePositions(ms: seq<StopMatch>, current: nat, nextId: nat)
    requires forall k :: 0 <= k < |ms| ==> Captured(ms[k])
    ensures forall k :: 0 <= k < |Place(ms, current, nextId)| ==>
      var p := Place(ms, current, nextId)[k].position;
      p.Finite? && IsInteger(p.value) && p.value >= 0.0
    decreases |ms|
  {
    if |ms| > 0 {
      PlacePositions(ms[1..], PositionOf(ms[0], current), nextId + 1);
    }
  }

  /** How a regular expression search tries each start in turn: the match
      `at` finds at the leftmost place from `i` to `n` where it finds one. */
  function First<T>(at: nat -> Option<T>, n: nat, i: nat): (r: Option<T>)
    requires i <= n
    ensures r.Some? ==> exists k :: i <= k <= n && at(k) == r
    decreases n - i
  {
    if at(i).Some? then at(i) else if i == n then None else First(at, n, i + 1)
  }

  /** The match found is the one at the leftmost place where there is one,
      and there is none when nothing is found. */
  lemma {:induction false} FirstLeftmost<T>(at: nat -> Option<T>, n: nat, i: nat)
    requires i <= n
    ensures First(at, n, i).None? ==> forall k :: i <= k <= n ==> at(k).None?
    ensures First(at, n, i).Some? ==>
      exists k :: i <= k <= n && at(k) == First(at, n, i) && (forall j :: i <= j < k ==> at(j).None?)
    decreases n - i
  {
    if at(i).None? && i < n {
      FirstLeftmost(at, n, i + 1);
      if First(at, n, i).Some? {
        var k :| i + 1 <= k <= n && at(k) == First(at, n, i + 1) && (forall j :: i + 1 <= j < k ==> at(j).None?);
        assert forall j :: i <= j < k ==> at(j).None?;
      }
    }
  }

  /** `\s*(.+)` at `c` (constants.ts:96), its capture trimmed (constants.ts:100).
      When only white space is left, `\s*` gives back until `.` finds a
      character that is not a line break, and that capture trims to "". */
  function RestAt(s: string, c: nat): (r: Option<string>)
    requires c <= |s|
    ensures r.Some? && |r.value| > 0 ==> !IsSpace(r.value[0]) && !IsSpace(r.value[|r.value| - 1])
  {
    var w := c + Run(s[c..], Spaces);
    if w < |s| then Some(Trim(s[w..w + Run(s[w..], NotLineBreak)]))
    else if Run(s[c..], LineBreaks) < |s| - c then Some("")
    else None
  }

  /** `/(\d+deg),\s*(.+)/` (constants.ts:96) at `i`: the first group and the
      trimmed second group. A match starts on a digit and its `\d+` runs to
      the end of the digits. */
  function DegAt(s: string, i: nat): (r: Option<(string, string)>)
    requires i <= |s|
    ensures r.Some? ==> var d := r.value.0;
      |d| > 3 && AllIn(d[..|d| - 3], Digits) && d[|d| - 3..] == "deg"
  {
    if i < |s| && IsDigit(s[i]) then
      assert s[i..][0] == s[i];
      RunSlice(s, i, Digits);
      DegAfterDigits(s, s[i..i + Run(s[i..], Digits)], i + Run(s[i..], Digits))
    else None
  }

  /** The rest of the angle pattern after the digit run `digits`, which ends at `e`. */
  function DegAfterDigits(s: string, digits: string, e: nat): (r: Option<(string, string)>)
    requires e <= |s| && |digits| > 0 && AllIn(digits, Digits)
    ensures r.Some? ==> r.value.0 == digits + "deg"
    ensures r.Some? ==> var d := r.value.0;
      |d| > 3 && AllIn(d[..|d| - 3], Digits) && d[|d| - 3..] == "deg"
  {
    if StartsWith(s[e..], "deg,") && RestAt(s, e + 4).Some? then
      DegText(digits);
      Some((digits + "deg", RestAt(s, e + 4).value))
    else None
  }

  /** The angle pattern's match at each position. */
  function DegMatches(s: string): nat -> Option<(string, string)> {
    (k: nat) => if k <= |s| then DegAt(s, k) else None
  }

  /** The leftmost match of that pattern starting at `i` or later. */
  function FindDeg(s: string, i: nat): (r: Option<(string, string)>)
    requires i <= |s|
    ensures r.Some? ==> var d := r.value.0;
      |d| > 3 && AllIn(d[..|d| - 3], Digits) && d[|d| - 3..] == "deg"
  {
    First(DegMatches(s), |s|, i)
  }

  lemma DegText(digits: string)
    requires AllIn(digits, Digits)
    ensures var d := digits + "deg"; AllIn(d[..|d| - 3], Digits) && d[|d| - 3..] == "deg"
  {
    var d := digits + "deg";
    assert d[..|d| - 3] == digits;
  }

  /** `/radial-gradient\(([^)]+)\)\s*,?\s*(.*)/` (constants.ts:103) at `i`:
      the text up to the first `)` after the opening, and what follows the
      `)` and an optional comma with white space around it, up to a line
      break. */
  function RadialAt(s: string, i: nat): (r: Option<(string, string)>)
    requires i <= |s|
    ensures r.Some? ==> |r.value.0| > 0 && AllIn(r.value.0, NotCloseParen)
  {
    if StartsWith(s[i..], "radial-gradient(") then
      var j := i + 16;
      var n := Run(s[j..], NotCloseParen);
      if n > 0 && j + n < |s| then
        var a := j + n + 1;
        var b := a + Run(s[a..], Spaces);
        var c := if b < |s| && s[b] == ',' then b + 1 else b;
        var d := c + Run(s[c..], Spaces);
        RunSlice(s, j, NotCloseParen);
        Some((s[j..j + n], s[d..d + Run(s[d..], NotLineBreak)]))
      else None
    else None
  }

  /** The radial pattern's match at each position. */
  function RadialMatches(s: string): nat -> Option<(string, string)> {
    (k: nat) => if k <= |s| then RadialAt(s, k) else None
  }

  /** The leftmost match of that pattern starting at `i` or later. */
  function FindRadial(s: string, i: nat): (r: Option<(string, string)>)
    requires i <= |s|
    ensures r.Some? ==> |r.value.0| > 0 && AllIn(r.value.0, NotCloseParen)
  {
    First(RadialMatches(s), |s|, i)
  }

  /** What `parseGradient` returns: the type, the direction (absent in the
      fallback) and the stops. */
  datatype Gradient = Gradient(kind: string, direction: Option<string>, stops: seq<Stop>)

  /** `parseGradient` (constants.ts:87-113). An angle followed by a comma
      makes a linear gradient; otherwise a `radial-gradient(` call makes a
      radial one, whose first `, `-separated part up to the first `)` is the
      direction and whose second part, `") "` and the rest are read as stops;
      otherwise the result is linear with no stops. */
  function ParseGradient(s: string, firstId: nat): (g: Gradient)
    ensures g.kind == "linear" || g.kind == "radial"
    ensures g.direction.None? ==> g.kind == "linear" && g.stops == []
  {
    match FindDeg(s, 0)
    case Some((direction, rest)) => Gradient("linear", Some(direction), ParsedStops(rest, firstId))
    case None =>
      match FindRadial(s, 0)
      case Some((inner, rest)) =>
        var parts := Split(inner, ", ");
        var second := if |parts| > 1 then parts[1] else "undefined";
        Gradient("radial", Some(parts[0]), ParsedStops(second + ") " + rest, firstId))
      case None => Gradient("linear", None, [])
  }

  /** `FindDeg` finds nothing exactly when no position matches, and
      otherwise the leftmost match. */
  lemma FindDegLeftmost(s: string)
    ensures FindDeg(s, 0).None? <==> forall k :: 0 <= k <= |s| ==> DegMatches(s)(k).None?
    ensures FindDeg(s, 0).Some? ==>
      exists k :: 0 <= k <= |s| && DegMatches(s)(k) == FindDeg(s, 0)
        && forall j :: 0 <= j < k ==> DegMatches(s)(j).None?
  {
    FirstLeftmost(DegMatches(s), |s|, 0);
  }

  lemma FindRadialSome(s: string)
    ensures FindRadial(s, 0).None? <==> forall k :: 0 <= k <= |s| ==> RadialMatches(s)(k).None?
  {
    FirstLeftmost(RadialMatches(s), |s|, 0);
  }

  /** Which branch `parseGradient` takes: linear with a direction exactly
      when the angle pattern matches at some position, the direction then
      being the angle of the leftmost match; radial exactly when the angle
      pattern matches nowhere and the radial pattern somewhere; otherwise
      the linear fallback without stops. */
  lemma ParseGradientBranches(s: string, firstId: nat)
    ensures var g := ParseGradient(s, firstId);
      (g.kind == "linear" && g.direction.Some? <==> exists k :: 0 <= k <= |s| && DegMatches(s)(k).Some?)
      && (g.kind == "radial" <==>
            (forall k :: 0 <= k <= |s| ==> DegMatches(s)(k).None?)
            && exists k :: 0 <= k <= |s| && RadialMatches(s)(k).Some?)
      && (g.kind == "linear" && g.direction.Some? ==>
            exists k :: 0 <= k <= |s| && DegMatches(s)(k).Some? && g.direction == Some(DegMatches(s)(k).value.0)
              && forall j :: 0 <= j < k ==> DegMatches(s)(j).None?)
      && (g.direction.None? ==> g == Gradient("linear", None, []))
  {
    FindDegLeftmost(s);
    FindRadialSome(s);
    ParseGradientCases(s, firstId);
    assert "linear"[0] != "radial"[0];
  }

  /** The three branches of `parseGradient`, by what the two searches find. */
  lemma ParseGradientCases(s: string, firstId: nat)
    ensures var g := ParseGradient(s, firstId);
      (FindDeg(s, 0).Some? ==> g.kind == "linear" && g.direction == Some(FindDeg(s, 0).value.0))
      && (FindDeg(s, 0).None? && FindRadial(s, 0).Some? ==> g.kind == "radial" && g.direction.Some?)
      && (FindDeg(s, 0).None? && FindRadial(s, 0).None? ==> g == Gradient("linear", None, []))
  {
  }
}
