/** Messages as text: fifteen fields separated by bars, the data last. */
module Wire {
  import opened Decimal
  import opened FieldCodec

  const MAX_USERNAME := 64
  const MAX_FILENAME := 256
  const MAX_PATH := 512
  const MAX_BUFFER := MAX_FIELD + 1
  const MSG_ACK := 16

  datatype Message = Message(
    kind: int, status: int, sender: string, filename: string, foldername: string, targetPath: string,
    sentenceIndex: int, wordIndex: int, ssId: int, clientPort: int, nmPort: int, access: int,
    targetUser: string, tag: string, data: string)

  /** `init_message`. */
  const BLANK := Message(MSG_ACK, 200, "", "", "", "", -1, -1, -1, 0, 0, 0, "", "", "")

  /** Fields 0, 1 and 6 to 11 are numbers, the others texts. */
  predicate IsNumber(k: nat) {
    k < 2 || 6 <= k < 12
  }

  function Number(m: Message, k: nat): int {
    match k
    case 0 => m.kind
    case 1 => m.status
    case 6 => m.sentenceIndex
    case 7 => m.wordIndex
    case 8 => m.ssId
    case 9 => m.clientPort
    case 10 => m.nmPort
    case _ => m.access
  }

  function Text(m: Message, k: nat): string {
    match k
    case 2 => m.sender
    case 3 => m.filename
    case 4 => m.foldername
    case 5 => m.targetPath
    case 12 => m.targetUser
    case 13 => m.tag
    case _ => m.data
  }

  /** How many characters the array of a text field holds in front of its terminator. */
  function Size(k: nat): nat {
    match k
    case 3 => MAX_FILENAME - 1
    case 4 => MAX_FILENAME - 1
    case 5 => MAX_PATH - 1
    case 14 => MAX_BUFFER - 1
    case _ => MAX_USERNAME - 1
  }

  predicate Fits32(n: int) {
    -0x8000_0000 <= n < 0x8000_0000
  }

  predicate FieldFits(m: Message, k: nat) {
    if IsNumber(k) then Fits32(Number(m, k)) else |Text(m, k)| <= Size(k)
  }

  /** The fields fit the C struct. */
  predicate InBounds(m: Message) {
    forall k :: 0 <= k < FIELDS ==> FieldFits(m, k)
  }

  // ----- encoding -----

  /** The fields in the order in which they are sent. */
  function Field(m: Message, k: nat): string {
    if IsNumber(k) then Print(Number(m, k)) else Text(m, k)
  }

  /** `serialize_message`. */
  function Encode(m: Message): string {
    Encoded((k: nat) => Field(m, k))
  }

  /** A message on the wire: its fields in this order, numbers in decimal, with bars between them. */
  lemma EncodedText(m: Message)
    ensures Encode(m) == Joined([
      Print(m.kind), Print(m.status), m.sender, m.filename, m.foldername, m.targetPath,
      Print(m.sentenceIndex), Print(m.wordIndex), Print(m.ssId), Print(m.clientPort), Print(m.nmPort), Print(m.access),
      m.targetUser, m.tag, m.data])
  {
    var ts := [
      Print(m.kind), Print(m.status), m.sender, m.filename, m.foldername, m.targetPath,
      Print(m.sentenceIndex), Print(m.wordIndex), Print(m.ssId), Print(m.clientPort), Print(m.nmPort), Print(m.access),
      m.targetUser, m.tag, m.data];
    JoinedIsEncoded((k: nat) => Field(m, k), ts, FIRST);
    assert ts[FIRST..] == ts;
  }

  // ----- decoding -----

  function SetNumber(m: Message, k: nat, n: int): Message {
    match k
    case 0 => m.(kind := n)
    case 1 => m.(status := n)
    case 6 => m.(sentenceIndex := n)
    case 7 => m.(wordIndex := n)
    case 8 => m.(ssId := n)
    case 9 => m.(clientPort := n)
    case 10 => m.(nmPort := n)
    case _ => m.(access := n)
  }

  function SetText(m: Message, k: nat, t: string): Message {
    match k
    case 2 => m.(sender := t)
    case 3 => m.(filename := t)
    case 4 => m.(foldername := t)
    case 5 => m.(targetPath := t)
    case 12 => m.(targetUser := t)
    case 13 => m.(tag := t)
    case _ => m.(data := t)
  }

  /** How much of a token the decoder copies; it treats the path like a file name. */
  function Copied(k: nat): nat {
    if k == 5 then MAX_FILENAME - 1 else Size(k)
  }

  /** Set one field from its token; an empty token leaves the default. */
  function StoreField(m: Message, k: nat, token: string): Message {
    if token == "" then m
    else if IsNumber(k) then SetNumber(m, k, Atoi(token))
    else SetText(m, k, Clip(token, Copied(k)))
  }

  function Decode(buffer: string): Message {
    Decoded(StoreField, BLANK, buffer)
  }

  /** `deserialize_message`. */
  method Deserialize(buffer: string) returns (m: Message)
    ensures m == Decode(buffer)
  {
    m := ReadFields(StoreField, BLANK, FIRST, buffer);
  }

  // ----- decoding any text -----

  /** The tokens of a text that the decoder stores: at most as many as there are fields, and none with a bar in it but
      that of the data. */
  predicate TokensOfText(ts: seq<string>) {
    1 <= |ts| <= FIELDS && NoBars(ts, FIRST)
  }

  /** Field `j` of `r` is what the token says; an empty token leaves what `m` has. */
  predicate Holds(r: Message, m: Message, j: nat, token: string) {
    if IsNumber(j) then Number(r, j) == (if token != "" then Atoi(token) else Number(m, j))
    else Text(r, j) == (if token != "" then Clip(token, Copied(j)) else Text(m, j))
  }

  /** The token of field `j`, if the tokens of `ts` are for the fields from `k` on; empty if there is none. */
  function TokenFor(ts: seq<string>, k: nat, j: nat): string {
    if k <= j < k + |ts| then Clip(ts[j - k], MAX_FIELD) else ""
  }

  lemma StoreOne(m: Message, k: nat, token: string, j: nat)
    requires k < FIELDS && j < FIELDS
    ensures Holds(StoreField(m, k, token), m, j, if j == k then token else "")
  {
  }

  lemma HoldsOn(r: Message, mid: Message, m: Message, j: nat, token: string, x: string)
    requires Holds(r, mid, j, token) && Holds(mid, m, j, x) && (token == "" || x == "")
    ensures Holds(r, m, j, if token != "" then token else x)
  {
  }

  lemma {:induction false} StoredFields(m: Message, k: nat, ts: seq<string>, j: nat)
    requires k + |ts| <= FIELDS && j < FIELDS
    ensures Holds(StoreAll(StoreField, m, k, ts), m, j, TokenFor(ts, k, j))
    decreases |ts|
  {
    if ts != [] {
      var token := Clip(ts[0], MAX_FIELD);
      var mid := StoreField(m, k, token);
      StoreOne(m, k, token, j);
      StoredFields(mid, k + 1, ts[1..], j);
      HoldsOn(StoreAll(StoreField, m, k, ts), mid, m, j, TokenFor(ts[1..], k + 1, j), if j == k then token else "");
    }
  }

  lemma DecodedAll(ts: seq<string>)
    requires TokensOfText(ts)
    ensures Decode(Joined(ts)) == StoreAll(StoreField, BLANK, FIRST, ts)
  {
    assert Joined(ts)[0..] == Joined(ts);
    DecodeJoined(StoreField, BLANK, FIRST, ts, Joined(ts), 0);
  }

  /** What the decoder makes of any text: each token in its field, a number read, a text cut to what is copied; a field
      whose token is empty or missing keeps the default of a blank message. */
  lemma DecodedField(ts: seq<string>, j: nat)
    requires TokensOfText(ts) && j < FIELDS
    ensures Holds(Decode(Joined(ts)), BLANK, j, if j < |ts| then Clip(ts[j], MAX_FIELD) else "")
  {
    DecodedAll(ts);
    StoredFields(BLANK, FIRST, ts, j);
  }

  /** The defaults: what an empty text is read as. */
  lemma EmptyText()
    ensures Decode("") == Message(16, 200, "", "", "", "", -1, -1, -1, 0, 0, 0, "", "", "")
  {
    assert Joined([""]) == "";
    DecodedAll([""]);
    assert [""][1..] == [];
  }

  /** Every text has such tokens. */
  lemma EveryTextHasTokens(buffer: string) returns (ts: seq<string>)
    ensures TokensOfText(ts) && Joined(ts) == buffer
  {
    ts := SplitAtBars(buffer, FIRST);
  }

  // ----- the round trip -----

  /** The field survives: it holds no bar, unless it is the data, and a path is no longer than a file name. */
  predicate FieldSurvives(m: Message, k: nat)
    requires k < FIELDS
  {
    k == FIELDS - 1 || ('|' !in Field(m, k) && (IsNumber(k) || |Field(m, k)| <= Copied(k)))
  }

  /** The message with the fields before `k` read and the others at their defaults. */
  function Loaded(m: Message, k: nat): Message {
    Message(
      if k > 0 then m.kind else BLANK.kind,
      if k > 1 then m.status else BLANK.status,
      if k > 2 then m.sender else "",
      if k > 3 then m.filename else "",
      if k > 4 then m.foldername else "",
      if k > 5 then m.targetPath else "",
      if k > 6 then m.sentenceIndex else BLANK.sentenceIndex,
      if k > 7 then m.wordIndex else BLANK.wordIndex,
      if k > 8 then m.ssId else BLANK.ssId,
      if k > 9 then m.clientPort else BLANK.clientPort,
      if k > 10 then m.nmPort else BLANK.nmPort,
      if k > 11 then m.access else BLANK.access,
      if k > 12 then m.targetUser else "",
      if k > 13 then m.tag else "",
      if k > 14 then m.data else "")
  }

  lemma NumbersHaveNoBar(m: Message, k: nat)
    requires k < FIELDS && IsNumber(k)
    ensures Field(m, k) != "" && '|' !in Field(m, k) && Atoi(Field(m, k)) == Number(m, k)
  {
    AtoiOfPrint(Number(m, k));
  }

  lemma SetLoads(m: Message, k: nat)
    requires k < FIELDS
    ensures IsNumber(k) ==> SetNumber(Loaded(m, k), k, Number(m, k)) == Loaded(m, k + 1)
    ensures !IsNumber(k) ==> SetText(Loaded(m, k), k, Text(m, k)) == Loaded(m, k + 1) && Text(Loaded(m, k), k) == ""
  {
  }

  /** Storing a surviving field reads it back. */
  lemma StoreLoads(m: Message, k: nat)
    requires k < FIELDS && InBounds(m) && FieldSurvives(m, k)
    ensures StoreField(Loaded(m, k), k, Clip(Field(m, k), MAX_BUFFER - 1)) == Loaded(m, k + 1)
  {
    assert FieldFits(m, k);
    SetLoads(m, k);
    if IsNumber(k) {
      NumbersHaveNoBar(m, k);
      PrintIsShort(Number(m, k));
    } else if Text(m, k) == "" {
      SetSameText(Loaded(m, k), k);
    }
  }

  lemma SetSameText(m: Message, k: nat)
    requires k < FIELDS && !IsNumber(k)
    ensures SetText(m, k, Text(m, k)) == m
  {
  }

  lemma PrintIsShort(n: int)
    requires Fits32(n)
    ensures |Print(n)| <= 11
  {
    assert Power10(10) == 10_000_000_000 by {
      assert Power10(5) == 100_000;
    }
    DigitsLength(if n < 0 then -n else n, 10);
  }

  /** A field that survives is stored as it was. */
  lemma FieldLoads(m: Message, k: nat)
    requires k < FIELDS && InBounds(m) && FieldSurvives(m, k)
    ensures Survives(StoreField, (j: nat) => Field(m, j), (j: nat) => Loaded(m, j), k)
  {
    StoreLoads(m, k);
  }

  lemma DecodeSurvivors(m: Message)
    requires InBounds(m) && forall k :: 0 <= k < FIELDS ==> FieldSurvives(m, k)
    ensures Decode(Encode(m)) == m
  {
    var field, loaded := (j: nat) => Field(m, j), (j: nat) => Loaded(m, j);
    forall k | 0 <= k < FIELDS
      ensures Survives(StoreField, field, loaded, k)
    {
      FieldLoads(m, k);
    }
    SurvivorsReturn(StoreField, field, loaded);
    assert loaded(FIRST) == BLANK && loaded(FIELDS) == m;
  }

  // ----- and when it fails -----

  /** Later fields do not touch earlier ones. */
  lemma StoreKeeps(m: Message, k: nat, token: string, j: nat)
    requires j < k < FIELDS
    ensures Field(StoreField(m, k, token), j) == Field(m, j)
  {
  }

  lemma FieldIsHidden(j: nat)
    ensures Hidden(StoreField, c => Field(c, j), j)
  {
    forall c: Message, k, token | j < k < FIELDS
      ensures Field(StoreField(c, k, token), j) == Field(c, j)
    {
      StoreKeeps(c, k, token, j);
    }
  }

  lemma StoredText(m: Message, k: nat, token: string, cur: Message)
    requires k < FIELDS && !IsNumber(k) && Text(cur, k) == ""
    ensures Field(StoreField(cur, k, token), k) == Clip(token, Copied(k))
  {
  }

  /** The token of a text with a bar is shorter than the text. */
  lemma TokenIsShort(field: nat -> string, k: nat, buffer: string, p: nat)
    requires k < FIELDS - 1 && StandsAt(field, k, buffer, p) && '|' in field(k)
    ensures |TokenAt(k, buffer, p)| < |field(k)|
  {
    FieldStands(field, k, buffer, p);
    var i :| 0 <= i < |field(k)| && field(k)[i] == '|';
    assert buffer[p + i] == buffer[p..p + |field(k)|][i];
    EndIsBefore(k, buffer, p, p + i);
  }

  /** The first field that does not survive comes back different. */
  lemma FirstBreaks(m: Message, j: nat)
    requires j < FIELDS && InBounds(m) && !FieldSurvives(m, j) && forall i :: 0 <= i < j ==> FieldSurvives(m, i)
    ensures Decode(Encode(m)) != m
  {
    var field, loaded, view := (i: nat) => Field(m, i), (i: nat) => Loaded(m, i), (c: Message) => Field(c, j);
    forall i | 0 <= i < j
      ensures Survives(StoreField, field, loaded, i)
    {
      FieldLoads(m, i);
    }
    FieldIsHidden(j);
    assert loaded(FIRST) == BLANK;
    var q := FieldReturns(StoreField, field, loaded, j, view);
    BrokenField(m, j, field, Encoded(field), q);
  }

  lemma BrokenField(m: Message, j: nat, field: nat -> string, buffer: string, q: nat)
    requires j < FIELDS && InBounds(m) && !FieldSurvives(m, j) && field(j) == Field(m, j)
    requires StandsAt(field, j, buffer, q)
    ensures Field(StoreField(Loaded(m, j), j, TokenAt(j, buffer, q)), j) != Field(m, j)
  {
    if IsNumber(j) {
      NumbersHaveNoBar(m, j);
    }
    SetLoads(m, j);
    StoredText(m, j, TokenAt(j, buffer, q), Loaded(m, j));
    if '|' in field(j) {
      TokenIsShort(field, j, buffer, q);
    }
  }

  lemma {:induction false} DecodeIff(m: Message)
    requires InBounds(m)
    ensures Decode(Encode(m)) == m <==> forall k :: 0 <= k < FIELDS ==> FieldSurvives(m, k)
  {
    if forall k :: 0 <= k < FIELDS ==> FieldSurvives(m, k) {
      DecodeSurvivors(m);
    } else {
      var j := FirstBroken(m, 0);
      FirstBreaks(m, j);
    }
  }

  lemma {:induction false} FirstBroken(m: Message, n: nat) returns (j: nat)
    requires n <= FIELDS && (forall k :: 0 <= k < n ==> FieldSurvives(m, k))
    requires exists k :: 0 <= k < FIELDS && !FieldSurvives(m, k)
    ensures j < FIELDS && !FieldSurvives(m, j) && forall i :: 0 <= i < j ==> FieldSurvives(m, i)
    decreases FIELDS - n
  {
    if !FieldSurvives(m, n) {
      j := n;
    } else {
      j := FirstBroken(m, n + 1);
    }
  }

  lemma SurvivesIff(m: Message, k: nat)
    requires k < FIELDS && InBounds(m)
    ensures FieldSurvives(m, k) <==>
      IsNumber(k) || k == FIELDS - 1 || ('|' !in Text(m, k) && (k == 5 ==> |Text(m, k)| < MAX_FILENAME))
  {
    assert FieldFits(m, k);
    if IsNumber(k) {
      NumbersHaveNoBar(m, k);
    }
  }

  lemma TextNames(m: Message)
    ensures Text(m, 2) == m.sender && Text(m, 3) == m.filename && Text(m, 4) == m.foldername
    ensures Text(m, 5) == m.targetPath && Text(m, 12) == m.targetUser && Text(m, 13) == m.tag
  {
  }

  /** All fields survive exactly if the texts in front of the data do. */
  lemma TextsSurvive(m: Message)
    requires InBounds(m)
    ensures (forall k :: 0 <= k < FIELDS ==> FieldSurvives(m, k)) <==>
      && '|' !in Text(m, 2) && '|' !in Text(m, 3) && '|' !in Text(m, 4) && '|' !in Text(m, 5)
      && '|' !in Text(m, 12) && '|' !in Text(m, 13) && |Text(m, 5)| < MAX_FILENAME
  {
    forall k | 0 <= k < FIELDS
      ensures FieldSurvives(m, k) <==>
        IsNumber(k) || k == FIELDS - 1 || ('|' !in Text(m, k) && (k == 5 ==> |Text(m, k)| < MAX_FILENAME))
    {
      SurvivesIff(m, k);
    }
    assert FieldSurvives(m, 2) == ('|' !in Text(m, 2)) && FieldSurvives(m, 3) == ('|' !in Text(m, 3));
    assert FieldSurvives(m, 4) == ('|' !in Text(m, 4));
    assert FieldSurvives(m, 5) == ('|' !in Text(m, 5) && |Text(m, 5)| < MAX_FILENAME);
    assert FieldSurvives(m, 12) == ('|' !in Text(m, 12)) && FieldSurvives(m, 13) == ('|' !in Text(m, 13));
  }

  /** For every message that the struct can hold, decoding the encoded text gives back the message if and only if no
      string field but the data holds a bar and the path is at most 255 characters long. */
  lemma RoundTripIff(m: Message)
    requires InBounds(m)
    ensures Decode(Encode(m)) == m <==>
      && '|' !in m.sender && '|' !in m.filename && '|' !in m.foldername && '|' !in m.targetPath
      && '|' !in m.targetUser && '|' !in m.tag && |m.targetPath| < MAX_FILENAME
  {
    DecodeIff(m);
    TextsSurvive(m);
    TextNames(m);
  }

  // ----- length -----

  /** The length check of `recv_message`. */
  predicate Accepted(length: int) {
    !(length >= MAX_BUFFER * 2 || length <= 0)
  }

  /** How long a field can be. */
  function Bound(k: nat): nat {
    if IsNumber(k) then 11 else Size(k)
  }

  lemma FieldLength(m: Message, k: nat)
    requires k < FIELDS && InBounds(m)
    ensures |Field(m, k)| <= Bound(k)
  {
    assert FieldFits(m, k);
    if IsNumber(k) {
      PrintIsShort(Number(m, k));
    }
  }

  lemma TotalLength(bound: nat -> nat)
    requires forall k :: bound(k) == Bound(k)
    ensures Total(bound, FIRST) == 9503
  {
    assert Total(bound, 12) == 63 + 1 + (63 + 1 + 8191);
    assert Total(bound, 9) == 3 * (11 + 1) + Total(bound, 12) by {
      assert Total(bound, 11) == 11 + 1 + Total(bound, 12);
      assert Total(bound, 10) == 11 + 1 + Total(bound, 11);
    }
    assert Total(bound, 6) == 3 * (11 + 1) + Total(bound, 9) by {
      assert Total(bound, 8) == 11 + 1 + Total(bound, 9);
      assert Total(bound, 7) == 11 + 1 + Total(bound, 8);
    }
    assert Total(bound, 3) == 2 * (255 + 1) + (511 + 1) + Total(bound, 6) by {
      assert Total(bound, 5) == 511 + 1 + Total(bound, 6);
      assert Total(bound, 4) == 255 + 1 + Total(bound, 5);
    }
    assert Total(bound, 1) == 11 + 1 + (63 + 1) + Total(bound, 3) by {
      assert Total(bound, 2) == 63 + 1 + Total(bound, 3);
    }
  }

  /** Every encoded message is at most 9503 characters long, is not empty, and passes the receiver's length check. */
  lemma EncodedIsAccepted(m: Message)
    requires InBounds(m)
    ensures 0 < |Encode(m)| <= 9503 && Accepted(|Encode(m)|)
  {
    var field, bound := (k: nat) => Field(m, k), (k: nat) => Bound(k);
    forall k | 0 <= k < FIELDS
      ensures |field(k)| <= bound(k)
    {
      FieldLength(m, k);
    }
    LengthAtMost(field, bound, FIRST);
    TotalLength(bound);
    assert field(FIRST) != "" by {
      NumbersHaveNoBar(m, FIRST);
    }
  }
}
