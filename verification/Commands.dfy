/** The text commands between publishers, subscribers and the broker, and how the broker reads them. */
module Commands {
  import opened Text

  const MAX_MSG := 512
  const TOPIC_SIZE := 50

  /** What a client asks of the broker. */
  datatype Request =
    | Subscribe(pid: nat, topic: string)
    | Unsubscribe(pid: nat, topic: string)
    | Publish(pid: nat, topic: string, text: string)

  predicate NoComma(s: string) {
    forall i :: 0 <= i < |s| ==> s[i] != ','
  }

  predicate GoodTopic(topic: string) {
    topic != "" && |topic| < TOPIC_SIZE && NoSpace(topic) && NoComma(topic)
  }

  /** Process ids are positive ints, and 1 is the message type of the broker itself. */
  predicate GoodRequest(r: Request) {
    1 < r.pid <= INT_MAX && GoodTopic(r.topic)
  }

  /** `snprintf` into a buffer of `size` bytes. */
  function Snprintf(size: nat, s: string): string
    requires size > 0
  {
    if |s| < size then s else s[..size - 1]
  }

  function Format(r: Request): string {
    match r
    case Subscribe(pid, topic) => "subscribe," + (Decimal(pid) + ("," + topic))
    case Unsubscribe(pid, topic) => "unsubscribe," + (Decimal(pid) + ("," + topic))
    case Publish(pid, topic, text) => "send," + (Decimal(pid) + ("," + (topic + ("," + text))))
  }

  /** The text a client puts on the queue. */
  function Message(r: Request): string {
    Snprintf(MAX_MSG, Format(r))
  }

  /** What the broker makes of a message. `Unknown` messages are ignored; on `Malformed` ones `sscanf`
      leaves a variable unset or writes past `topic`. */
  datatype Command =
    | DoSubscribe(pid: int, topic: string)
    | DoUnsubscribe(pid: int, topic: string)
    | DoSend(topic: string)
    | Unknown
    | Malformed

  function CommaLength(s: string): (n: nat)
    ensures n <= |s| && NoComma(s[..n]) && (n < |s| ==> s[n] == ',')
  {
    if s == "" || s[0] == ',' then 0
    else
      var n := 1 + CommaLength(s[1..]);
      assert s[..n] == [s[0]] + s[1..][..n - 1];
      n
  }

  /** `%[^,]`: at least one character, none of them a comma. */
  function ScanToComma(s: string): Option<string> {
    var n := CommaLength(s);
    if n == 0 then None else Some(s[..n])
  }

  /** The `literal%d,` both command formats begin with. */
  function ScanHead(literal: string, s: string): Option<(int, string)> {
    match ScanLiteral(literal, s)
    case None => None
    case Some(a) =>
      match ScanInt(a)
      case None => None
      case Some((pid, b)) =>
        match ScanLiteral(",", b)
        case None => None
        case Some(c) => Some((pid, c))
  }

  function Parse(s: string): Command {
    if "subscribe" <= s then
      match ScanHead("subscribe,", s)
      case None => Malformed
      case Some((pid, rest)) =>
        match ScanWord(rest)
        case None => Malformed
        case Some((topic, _)) => if |topic| < TOPIC_SIZE then DoSubscribe(pid, topic) else Malformed
    else if "unsubscribe" <= s then
      match ScanHead("unsubscribe,", s)
      case None => Malformed
      case Some((pid, rest)) =>
        match ScanWord(rest)
        case None => Malformed
        case Some((topic, _)) => if |topic| < TOPIC_SIZE then DoUnsubscribe(pid, topic) else Malformed
    else if "send" <= s then
      match ScanHead("send,", s)
      case None => Malformed
      case Some((_, rest)) =>
        match ScanToComma(rest)
        case None => Malformed
        case Some(topic) => if |topic| < TOPIC_SIZE then DoSend(topic) else Malformed
    else Unknown
  }

  function CommandOf(r: Request): Command {
    match r
    case Subscribe(pid, topic) => DoSubscribe(pid, topic)
    case Unsubscribe(pid, topic) => DoUnsubscribe(pid, topic)
    case Publish(_, topic, _) => DoSend(topic)
  }

  lemma HeadRoundTrip(literal: string, pid: nat, rest: string)
    ensures ScanHead(literal, literal + (Decimal(pid) + ("," + rest))) == Some((pid as int, rest))
  {
    var a := Decimal(pid) + ("," + rest);
    assert (literal + a)[|literal|..] == a;
    ScanIntOf(pid, "," + rest);
    assert ("," + rest)[1..] == rest;
  }

  lemma ToCommaOf(topic: string, rest: string)
    requires topic != "" && NoComma(topic) && (rest != "" ==> rest[0] == ',')
    ensures ScanToComma(topic + rest) == Some(topic)
  {
    var t := topic + rest;
    var n := CommaLength(t);
    assert forall i :: 0 <= i < |topic| ==> t[i] == topic[i];
    assert rest != "" ==> t[|topic|] == ',';
    assert forall i :: 0 <= i < n ==> t[..n][i] == t[i];
    assert t[..|topic|] == topic;
  }

  lemma WordOf(topic: string)
    requires topic != "" && NoSpace(topic)
    ensures ScanWord(topic) == Some((topic, ""))
  {
    ScanWordOf(topic, "");
    assert topic + "" == topic;
  }

  lemma SubscribeRoundTrip(pid: nat, topic: string)
    requires pid <= INT_MAX && GoodTopic(topic)
    ensures var m := "subscribe," + (Decimal(pid) + ("," + topic)); |m| < MAX_MSG && Parse(m) == DoSubscribe(pid, topic)
  {
    hide ScanHead, ScanWord;
    IntDigits(pid);
    HeadRoundTrip("subscribe,", pid, topic);
    WordOf(topic);
    assert ("subscribe," + (Decimal(pid) + ("," + topic)))[..9] == "subscribe";
  }

  lemma UnsubscribeRoundTrip(pid: nat, topic: string)
    requires pid <= INT_MAX && GoodTopic(topic)
    ensures var m := "unsubscribe," + (Decimal(pid) + ("," + topic));
      |m| < MAX_MSG && Parse(m) == DoUnsubscribe(pid, topic)
  {
    hide ScanHead, ScanWord;
    IntDigits(pid);
    HeadRoundTrip("unsubscribe,", pid, topic);
    WordOf(topic);
    var m := "unsubscribe," + (Decimal(pid) + ("," + topic));
    assert m[0] == 'u' && "subscribe"[0] == 's';
    assert m[..11] == "unsubscribe";
  }

  /** `rest` is whatever `snprintf` left of the comma and the text. */
  lemma SendRoundTrip(pid: nat, topic: string, rest: string)
    requires GoodTopic(topic) && (rest != "" ==> rest[0] == ',')
    ensures Parse("send," + (Decimal(pid) + ("," + (topic + rest)))) == DoSend(topic)
  {
    hide ScanHead, ScanToComma;
    HeadRoundTrip("send,", pid, topic + rest);
    ToCommaOf(topic, rest);
    var m := "send," + (Decimal(pid) + ("," + (topic + rest)));
    assert m[0] == 's' && m[1] == 'e' && "subscribe"[1] == 'u' && "unsubscribe"[0] == 'u';
    assert m[..4] == "send";
  }

  /** Cutting a published message leaves its head whole. */
  lemma CutPublish(pid: nat, topic: string, text: string) returns (rest: string)
    requires pid <= INT_MAX && GoodTopic(topic)
    ensures Message(Publish(pid, topic, text)) == "send," + (Decimal(pid) + ("," + (topic + rest)))
    ensures rest <= "," + text && (rest != "" ==> rest[0] == ',')
  {
    IntDigits(pid);
    var m := Message(Publish(pid, topic, text));
    var head := "send," + (Decimal(pid) + ("," + topic));
    assert Format(Publish(pid, topic, text)) == head + ("," + text);
    rest := m[|head|..];
    assert m == head + rest;
  }

  /** Formatting a request and parsing the message gives the request back, even when `snprintf` had to
      cut a long text. */
  lemma RequestRoundTrip(r: Request)
    requires GoodRequest(r)
    ensures Parse(Message(r)) == CommandOf(r) && |Message(r)| < MAX_MSG
  {
    hide Parse, GoodTopic;
    match r
    case Subscribe(pid, topic) => SubscribeRoundTrip(pid, topic);
    case Unsubscribe(pid, topic) => UnsubscribeRoundTrip(pid, topic);
    case Publish(pid, topic, text) =>
      var rest := CutPublish(pid, topic, text);
      SendRoundTrip(pid, topic, rest);
  }

  // ---------- what a message says, read by a scanner of its own ----------

  /** What follows the first `k` commas. */
  function AfterCommas(s: string, k: nat): Option<string>
    decreases s
  {
    if k == 0 then Some(s)
    else if s == "" then None
    else AfterCommas(s[1..], if s[0] as int == 44 then k - 1 else k)
  }

  /** The text up to the next comma. */
  function UpToComma(s: string): string {
    if s == "" || s[0] as int == 44 then "" else [s[0]] + UpToComma(s[1..])
  }

  /** Field `k` of a message, the first being field 0. */
  function FieldOf(s: string, k: nat): Option<string> {
    match AfterCommas(s, k)
    case None => None
    case Some(rest) => Some(UpToComma(rest))
  }

  predicate Commaless(s: string) {
    forall i :: 0 <= i < |s| ==> s[i] as int != 44
  }

  lemma {:induction false} SkipField(field: string, rest: string, k: nat)
    requires Commaless(field) && k > 0
    ensures AfterCommas(field + ("," + rest), k) == AfterCommas(rest, k - 1)
  {
    var s := field + ("," + rest);
    if field == "" {
      assert s[1..] == rest;
    } else {
      assert s[1..] == field[1..] + ("," + rest);
      SkipField(field[1..], rest, k);
    }
  }

  lemma {:induction false} TakeField(field: string, rest: string)
    requires Commaless(field) && (rest != "" ==> rest[0] as int == 44)
    ensures UpToComma(field + rest) == field
  {
    if field == "" {
      assert field + rest == rest;
    } else {
      assert (field + rest)[1..] == field[1..] + rest;
      TakeField(field[1..], rest);
    }
  }

  lemma DigitsCommaless(n: nat)
    ensures Commaless(Decimal(n))
  {
    DecimalIsValue(n);
  }

  /** The first two fields of any message: its kind and the process id in decimal. */
  lemma HeadFields(kind: string, pid: nat, rest: string)
    requires Commaless(kind)
    ensures var m := kind + ("," + (Decimal(pid) + ("," + rest)));
      && FieldOf(m, 0) == Some(kind) && FieldOf(m, 1) == Some(Decimal(pid))
      && forall k :: k >= 2 ==> AfterCommas(m, k) == AfterCommas(rest, k - 2)
  {
    hide UpToComma;
    var tail := Decimal(pid) + ("," + rest);
    var m := kind + ("," + tail);
    DigitsCommaless(pid);
    TakeField(kind, "," + tail);
    TakeField(Decimal(pid), "," + rest);
    SkipField(kind, tail, 1);
    forall k | k >= 2 ensures AfterCommas(m, k) == AfterCommas(rest, k - 2) {
      SkipField(kind, tail, k);
      SkipField(Decimal(pid), rest, k - 1);
    }
  }

  /** The first `n` bytes, or all of them. */
  function Cut(text: string, n: nat): string {
    if |text| <= n then text else text[..n]
  }

  /** How much of a text fits behind the head of its message: 511 bytes in all. */
  function TextRoom(pid: nat, topic: string): nat {
    var head := 7 + |Decimal(pid)| + |topic|;
    if head <= 511 then 511 - head else 0
  }

  /** A published message, field by field: "send", the process id, the topic, and then the text, whole if the
      line is shorter than 512 bytes and otherwise cut so that the message is 511 bytes long. */
  lemma PublishedFields(pid: nat, topic: string, text: string)
    requires 1 < pid <= INT_MAX && GoodTopic(topic)
    ensures var m := Message(Publish(pid, topic, text)); var room := TextRoom(pid, topic);
      && FieldOf(m, 0) == Some("send") && FieldOf(m, 1) == Some(Decimal(pid)) && FieldOf(m, 2) == Some(topic)
      && AfterCommas(m, 3) == Some(Cut(text, room))
      && |m| == 7 + |Decimal(pid)| + |topic| + |Cut(text, room)| <= 511
      && (|text| > room ==> |m| == 511)
  {
    hide AfterCommas, UpToComma;
    IntDigits(pid);
    var shown := Cut(text, TextRoom(pid, topic));
    var m := "send" + ("," + (Decimal(pid) + ("," + (topic + ("," + shown)))));
    assert Message(Publish(pid, topic, text)) == m by { MessageCut(pid, topic, text); }
    HeadFields("send", pid, topic + ("," + shown));
    TopicCommaless(topic);
    AfterNone(topic + ("," + shown));
    AfterNone(shown);
    TakeField(topic, "," + shown);
    SkipField(topic, shown, 1);
  }

  lemma AfterNone(s: string)
    ensures AfterCommas(s, 0) == Some(s)
  {
  }

  lemma TopicCommaless(topic: string)
    requires GoodTopic(topic)
    ensures Commaless(topic)
  {
  }

  lemma MessageCut(pid: nat, topic: string, text: string)
    requires pid <= INT_MAX && GoodTopic(topic)
    ensures Message(Publish(pid, topic, text)) ==
      "send" + ("," + (Decimal(pid) + ("," + (topic + ("," + Cut(text, TextRoom(pid, topic)))))))
  {
    IntDigits(pid);
    var head := "send," + (Decimal(pid) + ("," + (topic + ",")));
    assert Format(Publish(pid, topic, text)) == head + text;
    assert |head| == 7 + |Decimal(pid)| + |topic| <= 511;
    var room := TextRoom(pid, topic);
    assert (head + text)[..|head| + |Cut(text, room)|] == head + Cut(text, room);
  }

  /** A subscribe or unsubscribe message: its kind, the process id, and the topic as the rest. */
  lemma SubscriptionFields(pid: nat, topic: string)
    requires 1 < pid <= INT_MAX && GoodTopic(topic)
    ensures var m := Message(Subscribe(pid, topic));
      FieldOf(m, 0) == Some("subscribe") && FieldOf(m, 1) == Some(Decimal(pid)) && AfterCommas(m, 2) == Some(topic)
    ensures var m := Message(Unsubscribe(pid, topic));
      FieldOf(m, 0) == Some("unsubscribe") && FieldOf(m, 1) == Some(Decimal(pid)) && AfterCommas(m, 2) == Some(topic)
  {
    hide AfterCommas, UpToComma, FieldOf;
    IntDigits(pid);
    AfterNone(topic);
    HeadFields("subscribe", pid, topic);
    HeadFields("unsubscribe", pid, topic);
    assert Format(Subscribe(pid, topic)) == "subscribe" + ("," + (Decimal(pid) + ("," + topic)));
    assert Format(Unsubscribe(pid, topic)) == "unsubscribe" + ("," + (Decimal(pid) + ("," + topic)));
  }

  /** Good topics are those of 1 to 49 bytes without white space or comma. */
  lemma GoodTopicBytes(topic: string)
    ensures GoodTopic(topic) <==>
      && 1 <= |topic| <= 49
      && forall i :: 0 <= i < |topic| ==> var b := topic[i] as int; b != 32 && b != 44 && !(9 <= b <= 13)
  {
  }

  /** A message that begins with none of the three words is ignored, and only such a message. */
  lemma UnknownMessages(m: string)
    ensures Parse(m) == Unknown <==> !("subscribe" <= m) && !("unsubscribe" <= m) && !("send" <= m)
  {
  }
}
