/** Shift resolution (`turnoService.getCurrentTurno` in services/turno.ts): pick the
    shift window that contains the current clock time, among the windows loaded for
    a station in `horario_inicio` order. Times are compared as strings, as
    services/turno.ts does. */
module Turno {
  import opened Wrappers
  import opened Query

  /** A `Turno` row: a named window from `inicio` to `fim` ("HH:MM"); `ativo` may be null. */
  datatype Turno = Turno(id: int, nome: string, inicio: string, fim: string, ativo: Option<bool>)

  /** JavaScript's `<` on strings: character by character, a proper prefix first. */
  predicate StrLt(a: string, b: string)
  {
    if |a| == 0 then |b| > 0
    else if |b| == 0 then false
    else if a[0] != b[0] then a[0] < b[0]
    else StrLt(a[1..], b[1..])
  }

  lemma {:induction false} StrLtIrreflexive(a: string)
    ensures !StrLt(a, a)
  {
    if |a| > 0 {
      StrLtIrreflexive(a[1..]);
    }
  }

  /** Whether the window contains the clock time `now`: a window whose start is after
      its end wraps midnight. */
  predicate Contains(t: Turno, now: string)
  {
    if StrLt(t.fim, t.inicio) then !StrLt(now, t.inicio) || StrLt(now, t.fim)
    else !StrLt(now, t.inicio) && StrLt(now, t.fim)
  }

  function ContainsNow(now: string): Turno -> bool
  {
    (t: Turno) => Contains(t, now)
  }

  /** `t.ativo !== false`: a null or missing flag counts as active. */
  function IsActive(): Turno -> bool
  {
    (t: Turno) => t.ativo != Some(false)
  }

  /** The windows the search runs over: the active ones when there are any, else all. */
  function SearchList(turnos: seq<Turno>): (r: seq<Turno>)
    ensures forall i :: 0 <= i < |r| ==> r[i] in turnos
    ensures |turnos| > 0 ==> |r| > 0
    ensures (exists i :: 0 <= i < |turnos| && turnos[i].ativo != Some(false)) ==>
              (forall i :: 0 <= i < |r| ==> r[i].ativo != Some(false)) &&
              (forall i :: 0 <= i < |turnos| && turnos[i].ativo != Some(false) ==> turnos[i] in r)
    ensures (forall i :: 0 <= i < |turnos| ==> turnos[i].ativo == Some(false)) ==> r == turnos
  {
    WhereEmpty(turnos, IsActive());
    WhereKeepsAll(turnos, IsActive());
    var active := Where(turnos, IsActive());
    if |active| > 0 then active else turnos
  }

  /** With an active window present, the search list is the filter's result, so it keeps
      the order of the loaded list. */
  lemma SearchListIsFilter(turnos: seq<Turno>)
    requires exists i :: 0 <= i < |turnos| && turnos[i].ativo != Some(false)
    ensures SearchList(turnos) == Where(turnos, IsActive())
    ensures forall i :: 0 <= i < |turnos| && turnos[i].ativo != Some(false) ==> turnos[i] in SearchList(turnos)
  {
  }

  /** The name of the fallback window, compared after lower-casing. */
  const Diario := "di\U{e1}rio"

  /** `toLowerCase` on the letters of the Basic Latin and Latin-1 blocks. */
  function LowerChar(c: char): char
  {
    if 'A' <= c <= 'Z' then (c as int + 32) as char
    else if '\U{c0}' <= c <= '\U{de}' && c != '\U{d7}' then (c as int + 32) as char
    else c
  }

  function ToLower(s: string): (r: string)
    ensures |r| == |s|
    ensures forall i :: 0 <= i < |s| ==> r[i] == LowerChar(s[i])
  {
    seq(|s|, i requires 0 <= i < |s| => LowerChar(s[i]))
  }

  function NamedDiario(): Turno -> bool
  {
    (t: Turno) => ToLower(t.nome) == Diario
  }

  /** Lines 45-83, after the windows are loaded and the clock is formatted as `now`. */
  function SelectTurno(turnos: seq<Turno>, now: string): (r: Option<Turno>)
    ensures r.None? <==> |turnos| == 0
    ensures r.Some? ==> r.value in SearchList(turnos) && r.value in turnos
    ensures (exists i :: 0 <= i < |SearchList(turnos)| && Contains(SearchList(turnos)[i], now)) ==>
              r.Some? && Contains(r.value, now)
  {
    if |turnos| == 0 then None
    else
      var search := SearchList(turnos);
      match First(search, ContainsNow(now))
      case Some(t) => Some(t)
      case None =>
        match First(search, NamedDiario())
        case Some(d) => Some(d)
        case None => Some(search[0])
  }

  /** A window that contains `now` wins, and it is the first such window of the search list. */
  lemma SelectTurnoFirstMatch(turnos: seq<Turno>, now: string, k: nat)
    requires k < |SearchList(turnos)| && Contains(SearchList(turnos)[k], now)
    requires forall j :: 0 <= j < k ==> !Contains(SearchList(turnos)[j], now)
    ensures SelectTurno(turnos, now) == Some(SearchList(turnos)[k])
  {
    var search := SearchList(turnos);
    var r := First(search, ContainsNow(now));
    assert r.Some?;
    var k' :| 0 <= k' < |search| && search[k'] == r.value && Contains(search[k'], now) &&
              forall j :: 0 <= j < k' ==> !Contains(search[j], now);
    assert !(k' < k) && !(k < k');
  }

  /** The same over the loaded list itself, since the filter keeps its order: an active
      window that contains `now`, with no earlier active window containing it, is chosen. */
  lemma SelectTurnoFirstActiveMatch(turnos: seq<Turno>, now: string, k: nat)
    requires k < |turnos| && turnos[k].ativo != Some(false) && Contains(turnos[k], now)
    requires forall j :: 0 <= j < k && turnos[j].ativo != Some(false) ==> !Contains(turnos[j], now)
    ensures SelectTurno(turnos, now) == Some(turnos[k])
  {
    var p := IsActive();
    var before, rest := turnos[..k], turnos[k + 1..];
    assert turnos == before + ([turnos[k]] + rest);
    WhereConcat(before, [turnos[k]] + rest, p);
    WhereConcat([turnos[k]], rest, p);
    assert Where([turnos[k]], p) == [turnos[k]] by {
      assert [turnos[k]][..0] == [];
    }
    SearchListIsFilter(turnos);
    var search := SearchList(turnos);
    var m := |Where(before, p)|;
    assert search[m] == turnos[k];
    forall j | 0 <= j < m ensures !Contains(search[j], now) {
      assert search[j] == Where(before, p)[j];
      var i :| 0 <= i < |before| && before[i] == search[j];
    }
    SelectTurnoFirstMatch(turnos, now, m);
  }

  /** When no window contains `now`: the first window named "diário" (any letter case),
      and failing that the first window of the search list. */
  lemma SelectTurnoFallback(turnos: seq<Turno>, now: string)
    requires |turnos| > 0
    requires forall j :: 0 <= j < |SearchList(turnos)| ==> !Contains(SearchList(turnos)[j], now)
    ensures var search := SearchList(turnos);
            var r := SelectTurno(turnos, now).value;
            if exists j :: 0 <= j < |search| && ToLower(search[j].nome) == Diario
            then ToLower(r.nome) == Diario &&
                 exists k :: 0 <= k < |search| && search[k] == r &&
                             forall j :: 0 <= j < k ==> ToLower(search[j].nome) != Diario
            else r == search[0]
  {
    var search := SearchList(turnos);
    assert First(search, ContainsNow(now)).None?;
  }

  /** A window whose start equals its end never contains any time. */
  lemma EmptyWindowNeverMatches(t: Turno, now: string)
    requires t.inicio == t.fim
    ensures !Contains(t, now)
  {
    StrLtIrreflexive(t.inicio);
  }

  // ---- Clock times "HH:MM" ----

  predicate IsDigit(c: char) { '0' <= c <= '9' }

  function DigitValue(c: char): nat
    requires IsDigit(c)
  {
    c as nat - '0' as nat
  }

  function DigitChar(n: nat): (c: char)
    requires n < 10
    ensures IsDigit(c) && DigitValue(c) == n
  {
    ('0' as nat + n) as char
  }

  /** `String(n).padStart(2, '0')` for `n` below 100. */
  function Pad2(n: nat): (s: string)
    requires n < 100
    ensures |s| == 2 && IsDigit(s[0]) && IsDigit(s[1])
    ensures DigitValue(s[0]) * 10 + DigitValue(s[1]) == n
  {
    [DigitChar(n / 10), DigitChar(n % 10)]
  }

  /** Line 51: the current time as zero-padded "HH:MM". */
  function ClockTime(hour: nat, minute: nat): string
    requires hour < 24 && minute < 60
  {
    Pad2(hour) + ":" + Pad2(minute)
  }

  /** A well-formed "HH:MM" string: two digits, a colon, two digits below 60. */
  predicate IsHHMM(s: string)
  {
    |s| == 5 && IsDigit(s[0]) && IsDigit(s[1]) && s[2] == ':' && '0' <= s[3] <= '5' && IsDigit(s[4])
  }

  function Minutes(s: string): nat
    requires IsHHMM(s)
  {
    (DigitValue(s[0]) * 10 + DigitValue(s[1])) * 60 + DigitValue(s[3]) * 10 + DigitValue(s[4])
  }

  lemma ClockTimeIsHHMM(hour: nat, minute: nat)
    requires hour < 24 && minute < 60
    ensures IsHHMM(ClockTime(hour, minute))
    ensures Minutes(ClockTime(hour, minute)) == hour * 60 + minute
  {
    var s := ClockTime(hour, minute);
    assert s[3] == Pad2(minute)[0];
    assert DigitValue(s[3]) <= 5;
  }

  /** On well-formed clock times, the string order is the order of minutes since midnight. */
  lemma StrLtIsMinutesOrder(a: string, b: string)
    requires IsHHMM(a) && IsHHMM(b)
    ensures StrLt(a, b) <==> Minutes(a) < Minutes(b)
  {
    var a1, b1 := a[1..], b[1..];
    var a2, b2 := a1[1..], b1[1..];
    var a3, b3 := a2[1..], b2[1..];
    var a4, b4 := a3[1..], b3[1..];
    assert StrLt(a4, b4) <==> a[4] < b[4];
    assert StrLt(a3, b3) <==> (if a[3] != b[3] then a[3] < b[3] else a[4] < b[4]);
    assert StrLt(a2, b2) <==> StrLt(a3, b3);
  }

  /** On well-formed times, a window contains `now` when start <= now < end, or, for a
      window that wraps midnight (start after end), when now >= start or now < end. */
  lemma ContainsByMinutes(t: Turno, now: string)
    requires IsHHMM(t.inicio) && IsHHMM(t.fim) && IsHHMM(now)
    ensures var s, e, n := Minutes(t.inicio), Minutes(t.fim), Minutes(now);
            Contains(t, now) <==> if s <= e then s <= n < e else n >= s || n < e
  {
    StrLtIsMinutesOrder(t.fim, t.inicio);
    StrLtIsMinutesOrder(now, t.inicio);
    StrLtIsMinutesOrder(now, t.fim);
  }

  /** `getCurrentTurno`: the windows of the station (from `getAll`, in their order) and the
      clock's hour and minute. */
  function CurrentTurno(turnos: seq<Turno>, hour: nat, minute: nat): (r: Option<Turno>)
    requires hour < 24 && minute < 60
    ensures r.None? <==> |turnos| == 0
    ensures r.Some? ==> r.value in turnos
  {
    SelectTurno(turnos, ClockTime(hour, minute))
  }
}
