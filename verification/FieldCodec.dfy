/** A record of fields as text, with bars between them: reading what was written, for any kind of record. */
module FieldCodec {
  const FIRST: nat := 0
  const FIELDS: nat := 15
  const MAX_FIELD := 8191

  // ----- writing -----

  /** The fields from `k` on, with bars between them. */
  function EncodeFrom(field: nat -> string, k: nat): string
    requires k < FIELDS
    decreases FIELDS - k
  {
    if k == FIELDS - 1 then field(k) else field(k) + "|" + EncodeFrom(field, k + 1)
  }

  // ----- reading -----

  function Clip(s: string, max: nat): string {
    if |s| <= max then s else s[..max]
  }

  /** Where the token of field `k` that starts at `p` ends: at the next bar, or at the end of the text for the last. */
  function EndAt(k: nat, buffer: string, p: nat): (stop: nat)
    requires p <= |buffer|
    ensures p <= stop <= |buffer|
    decreases |buffer| - p
  {
    if p == |buffer| || (k != FIELDS - 1 && buffer[p] == '|') then p else EndAt(k, buffer, p + 1)
  }

  function TokenAt(k: nat, buffer: string, p: nat): string
    requires p <= |buffer|
  {
    Clip(buffer[p..EndAt(k, buffer, p)], MAX_FIELD)
  }

  /** Read the fields from `k` on; the pointer is at `p`. */
  function DecodeFrom<T>(store: (T, nat, string) -> T, r: T, k: nat, buffer: string, p: nat): T
    requires k <= FIELDS && p <= |buffer|
    decreases FIELDS - k
  {
    if k == FIELDS then r else
      var stop := EndAt(k, buffer, p);
      var stored := store(r, k, TokenAt(k, buffer, p));
      if stop == |buffer| then stored else DecodeFrom(store, stored, k + 1, buffer, stop + 1)
  }

  method FindEnd(buffer: string, p: nat, k: nat) returns (stop: nat)
    requires p <= |buffer|
    ensures stop == EndAt(k, buffer, p)
  {
    stop := p;
    while stop < |buffer| && (k == FIELDS - 1 || buffer[stop] != '|')
      invariant p <= stop <= |buffer| && EndAt(k, buffer, p) == EndAt(k, buffer, stop)
    {
      stop := stop + 1;
    }
  }

  /** The loop over a pointer and a field counter, from some field on. */
  method ReadFields<T>(store: (T, nat, string) -> T, blank: T, first: nat, buffer: string) returns (r: T)
    requires first <= FIELDS
    ensures r == DecodeFrom(store, blank, first, buffer, 0)
  {
    r := blank;
    var p, field := 0, first;
    ghost var result := DecodeFrom(store, blank, first, buffer, 0);
    while field < FIELDS
      invariant first <= field <= FIELDS && 0 <= p <= |buffer|
      invariant result == DecodeFrom(store, r, field, buffer, p)
    {
      var stop := FindEnd(buffer, p, field);
      var token := buffer[p..stop];
      if |token| > MAX_FIELD {
        token := token[..MAX_FIELD];
      }
      assert token == TokenAt(field, buffer, p);
      r := store(r, field, token);
      if stop == |buffer| {
        return;
      }
      p, field := stop + 1, field + 1;
    }
  }

  // ----- texts as lists of tokens -----

  /** Texts with bars between them. */
  function Joined(ts: seq<string>): string {
    if ts == [] then "" else if |ts| == 1 then ts[0] else ts[0] + "|" + Joined(ts[1..])
  }

  lemma {:induction false} JoinedIsEncoded(field: nat -> string, ts: seq<string>, k: nat)
    requires |ts| == FIELDS && k < FIELDS && forall i :: 0 <= i < FIELDS ==> ts[i] == field(i)
    ensures EncodeFrom(field, k) == Joined(ts[k..])
    decreases FIELDS - k
  {
    if k < FIELDS - 1 {
      JoinedIsEncoded(field, ts, k + 1);
      assert ts[k..][1..] == ts[k + 1..];
    }
  }

  /** Storing tokens one after the other, from field `k` on. */
  function StoreAll<T>(store: (T, nat, string) -> T, r: T, k: nat, ts: seq<string>): T
    decreases |ts|
  {
    if ts == [] then r else StoreAll(store, store(r, k, Clip(ts[0], MAX_FIELD)), k + 1, ts[1..])
  }

  /** Only the last field may hold a bar. */
  predicate NoBars(ts: seq<string>, k: nat) {
    forall i :: 0 <= i < |ts| ==> k + i == FIELDS - 1 || '|' !in ts[i]
  }

  lemma FirstTokenAt(ts: seq<string>, k: nat, buffer: string, p: nat)
    requires ts != [] && k + |ts| <= FIELDS && NoBars(ts, k) && p <= |buffer| && buffer[p..] == Joined(ts)
    ensures var n := p + |ts[0]|;
      && n <= |buffer| && EndAt(k, buffer, p) == n && buffer[p..n] == ts[0]
      && (if |ts| == 1 then n == |buffer| else n < |buffer| && buffer[n + 1..] == Joined(ts[1..]))
  {
    var n, rest := p + |ts[0]|, buffer[p..];
    assert rest[..|ts[0]|] == ts[0];
    assert buffer[p..n] == rest[..|ts[0]|];
    if k == FIELDS - 1 {
      DataEnds(buffer, p);
    } else {
      assert k + 0 == FIELDS - 1 || '|' !in ts[0];
      forall i | p <= i < n
        ensures buffer[i] != '|'
      {
        assert buffer[i] == ts[0][i - p];
      }
      if |ts| == 1 {
        NoBarToEnd(k, buffer, p);
      } else {
        assert buffer[n] == rest[|ts[0]|] == '|';
        EndIs(k, buffer, p, n);
        assert buffer[n + 1..] == rest[|ts[0]| + 1..];
      }
    }
  }

  lemma {:induction false} NoBarToEnd(k: nat, buffer: string, p: nat)
    requires p <= |buffer| && forall i :: p <= i < |buffer| ==> buffer[i] != '|'
    ensures EndAt(k, buffer, p) == |buffer|
    decreases |buffer| - p
  {
    if p < |buffer| {
      NoBarToEnd(k, buffer, p + 1);
    }
  }

  /** The decoder stores the tokens of the text one after the other. */
  lemma {:induction false} DecodeJoined<T>(store: (T, nat, string) -> T, r: T, k: nat, ts: seq<string>, buffer: string,
                                           p: nat)
    requires ts != [] && k + |ts| <= FIELDS && NoBars(ts, k) && p <= |buffer| && buffer[p..] == Joined(ts)
    ensures DecodeFrom(store, r, k, buffer, p) == StoreAll(store, r, k, ts)
    decreases |ts|
  {
    FirstTokenAt(ts, k, buffer, p);
    if |ts| > 1 {
      assert NoBars(ts[1..], k + 1) by {
        assert forall i :: 0 <= i < |ts[1..]| ==> ts[1..][i] == ts[i + 1] && k + 1 + i == k + (i + 1);
      }
      DecodeJoined(store, store(r, k, Clip(ts[0], MAX_FIELD)), k + 1, ts[1..], buffer, p + |ts[0]| + 1);
    } else {
      assert ts[1..] == [];
    }
  }

  lemma {:induction false} FindBar(s: string) returns (n: nat)
    requires '|' in s
    ensures n < |s| && s[n] == '|' && '|' !in s[..n]
  {
    if s[0] == '|' {
      n := 0;
    } else {
      assert s == [s[0]] + s[1..];
      n := FindBar(s[1..]);
      n := n + 1;
      assert s[..n] == [s[0]] + s[1..][..n - 1];
    }
  }

  /** The tokens of any text. */
  lemma {:induction false} SplitAtBars(s: string, k: nat) returns (ts: seq<string>)
    requires k < FIELDS
    ensures ts != [] && k + |ts| <= FIELDS && NoBars(ts, k) && Joined(ts) == s
    decreases FIELDS - k
  {
    if k == FIELDS - 1 || '|' !in s {
      ts := [s];
    } else {
      var n := FindBar(s);
      var rest := SplitAtBars(s[n + 1..], k + 1);
      ts := [s[..n]] + rest;
      assert ts[1..] == rest;
      forall i | 0 <= i < |ts|
        ensures k + i == FIELDS - 1 || '|' !in ts[i]
      {
        if i > 0 {
          assert k + 1 + (i - 1) == FIELDS - 1 || '|' !in rest[i - 1];
        }
      }
      assert s == s[..n] + "|" + s[n + 1..];
    }
  }

  // ----- what stands where -----

  /** A token without bars ends at the bar behind it. */
  lemma {:induction false} EndIs(k: nat, buffer: string, p: nat, stop: nat)
    requires k < FIELDS - 1 && p <= stop < |buffer| && buffer[stop] == '|'
    requires forall i :: p <= i < stop ==> buffer[i] != '|'
    ensures EndAt(k, buffer, p) == stop
    decreases stop - p
  {
    if p < stop {
      EndIs(k, buffer, p + 1, stop);
    }
  }

  lemma {:induction false} DataEnds(buffer: string, p: nat)
    requires p <= |buffer|
    ensures EndAt(FIELDS - 1, buffer, p) == |buffer|
    decreases |buffer| - p
  {
    if p < |buffer| {
      DataEnds(buffer, p + 1);
    }
  }

  /** A token ends at the first bar or in front of it. */
  lemma {:induction false} EndIsBefore(k: nat, buffer: string, p: nat, bar: nat)
    requires k < FIELDS - 1 && p <= bar < |buffer| && buffer[bar] == '|'
    ensures EndAt(k, buffer, p) <= bar
    decreases bar - p
  {
    if p < bar {
      EndIsBefore(k, buffer, p + 1, bar);
    }
  }

  /** The encoded fields from `k` on stand at `p`. */
  predicate StandsAt(field: nat -> string, k: nat, buffer: string, p: nat)
    requires k < FIELDS
  {
    p <= |buffer| && buffer[p..] == EncodeFrom(field, k)
  }

  /** What stands at the pointer: the field, and behind it a bar and the fields that follow. */
  lemma FieldStands(field: nat -> string, k: nat, buffer: string, p: nat)
    requires k < FIELDS && StandsAt(field, k, buffer, p)
    ensures var n := p + |field(k)|;
      && n <= |buffer| && buffer[p..n] == field(k)
      && (if k == FIELDS - 1 then n == |buffer|
          else n < |buffer| && buffer[n] == '|' && StandsAt(field, k + 1, buffer, n + 1))
  {
    var s, rest, n := field(k), buffer[p..], p + |field(k)|;
    assert rest[..|s|] == s;
    assert buffer[p..n] == rest[..|s|];
    if k < FIELDS - 1 {
      assert rest[|s|] == '|' && rest[|s| + 1..] == EncodeFrom(field, k + 1);
      assert buffer[n + 1..] == rest[|s| + 1..];
    }
  }

  /** A surviving field is read whole. */
  lemma TokenIs(field: nat -> string, k: nat, buffer: string, p: nat)
    requires k < FIELDS && StandsAt(field, k, buffer, p) && (k == FIELDS - 1 || '|' !in field(k))
    ensures EndAt(k, buffer, p) == p + |field(k)|
    ensures TokenAt(k, buffer, p) == Clip(field(k), MAX_FIELD)
  {
    FieldStands(field, k, buffer, p);
    if k == FIELDS - 1 {
      DataEnds(buffer, p);
    } else {
      var n := p + |field(k)|;
      forall i | p <= i < n
        ensures buffer[i] != '|'
      {
        assert buffer[i] == buffer[p..n][i - p];
      }
      EndIs(k, buffer, p, n);
    }
  }

  // ----- the round trip of the fields -----

  /** The field survives: it is stored as it was, and holds no bar unless it is the last. `loaded(k)` is the record with
      the fields before `k` read. */
  ghost predicate Survives<T(!new)>(store: (T, nat, string) -> T, field: nat -> string, loaded: nat -> T, k: nat)
    requires k < FIELDS
  {
    && (k == FIELDS - 1 || '|' !in field(k))
    && store(loaded(k), k, Clip(field(k), MAX_FIELD)) == loaded(k + 1)
  }

  /** Reading one field that survives. */
  lemma DecodeOne<T(!new)>(store: (T, nat, string) -> T, field: nat -> string, loaded: nat -> T,
                           k: nat, buffer: string, p: nat)
      returns (next: nat)
    requires k + 1 < FIELDS && StandsAt(field, k, buffer, p) && Survives(store, field, loaded, k)
    ensures StandsAt(field, k + 1, buffer, next)
    ensures DecodeFrom(store, loaded(k), k, buffer, p) == DecodeFrom(store, loaded(k + 1), k + 1, buffer, next)
  {
    next := p + |field(k)| + 1;
    FieldStands(field, k, buffer, p);
    TokenIs(field, k, buffer, p);
  }

  /** Reading the fields from `k` on, if they survive. */
  lemma {:induction false} DecodeLoads<T(!new)>(store: (T, nat, string) -> T, field: nat -> string, loaded: nat -> T,
                                                k: nat, buffer: string, p: nat)
    requires k < FIELDS && StandsAt(field, k, buffer, p)
    requires forall j :: k <= j < FIELDS ==> Survives(store, field, loaded, j)
    ensures DecodeFrom(store, loaded(k), k, buffer, p) == loaded(FIELDS)
    decreases FIELDS - k
  {
    assert Survives(store, field, loaded, k);
    if k == FIELDS - 1 {
      FieldStands(field, k, buffer, p);
      TokenIs(field, k, buffer, p);
    } else {
      var next := DecodeOne(store, field, loaded, k, buffer, p);
      DecodeLoads(store, field, loaded, k + 1, buffer, next);
    }
  }

  /** Storing a field behind field `j` does not change what the view shows. */
  ghost predicate Hidden<T(!new)>(store: (T, nat, string) -> T, view: T -> string, j: nat) {
    forall r, k, token :: j < k < FIELDS ==> view(store(r, k, token)) == view(r)
  }

  lemma {:induction false} DecodeIsHidden<T(!new)>(store: (T, nat, string) -> T, view: T -> string, r: T, k: nat,
                                                   buffer: string, p: nat, j: nat)
    requires j < k <= FIELDS && p <= |buffer| && Hidden(store, view, j)
    ensures view(DecodeFrom(store, r, k, buffer, p)) == view(r)
    decreases FIELDS - k
  {
    if k < FIELDS {
      var stop := EndAt(k, buffer, p);
      var stored := store(r, k, TokenAt(k, buffer, p));
      assert view(stored) == view(r);
      if stop < |buffer| {
        DecodeIsHidden(store, view, stored, k + 1, buffer, stop + 1, j);
      }
    }
  }

  /** Reading goes through the fields that survive. */
  lemma {:induction false} DecodeReaches<T(!new)>(store: (T, nat, string) -> T, field: nat -> string, loaded: nat -> T,
                                                  k: nat, buffer: string, p: nat, j: nat)
      returns (q: nat)
    requires k <= j < FIELDS && StandsAt(field, k, buffer, p)
    requires forall i :: k <= i < j ==> Survives(store, field, loaded, i)
    ensures StandsAt(field, j, buffer, q)
    ensures DecodeFrom(store, loaded(k), k, buffer, p) == DecodeFrom(store, loaded(j), j, buffer, q)
    decreases FIELDS - k
  {
    if k == j {
      q := p;
    } else {
      assert Survives(store, field, loaded, k);
      var next := DecodeOne(store, field, loaded, k, buffer, p);
      q := DecodeReaches(store, field, loaded, k + 1, buffer, next, j);
    }
  }

  /** What shows of a field once it is read shows of it in the end. */
  lemma DecodeShows<T(!new)>(store: (T, nat, string) -> T, r: T, j: nat, buffer: string, q: nat, view: T -> string)
    requires j < FIELDS && q <= |buffer| && Hidden(store, view, j)
    ensures view(DecodeFrom(store, r, j, buffer, q)) == view(store(r, j, TokenAt(j, buffer, q)))
  {
    var stop := EndAt(j, buffer, q);
    if stop < |buffer| {
      DecodeIsHidden(store, view, store(r, j, TokenAt(j, buffer, q)), j + 1, buffer, stop + 1, j);
    }
  }

  function Encoded(field: nat -> string): string {
    EncodeFrom(field, FIRST)
  }

  function Decoded<T>(store: (T, nat, string) -> T, blank: T, buffer: string): T {
    DecodeFrom(store, blank, FIRST, buffer, 0)
  }

  lemma AllStand(field: nat -> string)
    ensures StandsAt(field, FIRST, Encoded(field), 0)
  {
    assert Encoded(field)[0..] == Encoded(field);
  }

  /** If every field survives, reading the written record gives it back. */
  lemma SurvivorsReturn<T(!new)>(store: (T, nat, string) -> T, field: nat -> string, loaded: nat -> T)
    requires forall k :: 0 <= k < FIELDS ==> Survives(store, field, loaded, k)
    ensures Decoded(store, loaded(FIRST), Encoded(field)) == loaded(FIELDS)
  {
    AllStand(field);
    DecodeLoads(store, field, loaded, FIRST, Encoded(field), 0);
  }

  /** What reading the written record makes of field `j`, if the fields in front of it survive. */
  lemma FieldReturns<T(!new)>(store: (T, nat, string) -> T, field: nat -> string, loaded: nat -> T, j: nat,
                              view: T -> string)
      returns (q: nat)
    requires j < FIELDS && Hidden(store, view, j) && forall i :: 0 <= i < j ==> Survives(store, field, loaded, i)
    ensures StandsAt(field, j, Encoded(field), q)
    ensures view(Decoded(store, loaded(FIRST), Encoded(field)))
         == view(store(loaded(j), j, TokenAt(j, Encoded(field), q)))
  {
    AllStand(field);
    q := DecodeReaches(store, field, loaded, FIRST, Encoded(field), 0, j);
    DecodeShows(store, loaded(j), j, Encoded(field), q, view);
  }

  // ----- length -----

  /** How long the fields from `k` on can be, with their bars. */
  function Total(bound: nat -> nat, k: nat): nat
    requires k < FIELDS
    decreases FIELDS - k
  {
    if k == FIELDS - 1 then bound(k) else bound(k) + 1 + Total(bound, k + 1)
  }

  lemma {:induction false} LengthAtMost(field: nat -> string, bound: nat -> nat, k: nat)
    requires k < FIELDS && forall j :: 0 <= j < FIELDS ==> |field(j)| <= bound(j)
    ensures |EncodeFrom(field, k)| <= Total(bound, k)
    decreases FIELDS - k
  {
    if k < FIELDS - 1 {
      LengthAtMost(field, bound, k + 1);
    }
  }
}
