/** bots/consent_handler.py: the consent endpoint. A WhatsApp message from a subscriber moves
    their record between opted_in and opted_out by keyword (a status inquiry, STOP/UNSUBSCRIBE/
    CANCEL, JOIN/START/YES/SUBSCRIBE), confirming without a write when the record already has the
    requested status; a web form sets the status from its action and consent fields. The
    subscriber table is a map from phone number to record; replies are TwiML documents whose
    message text is XML-escaped. */
module Consent {
  import opened Common

  // ---------------------------------------------------------------------------
  // Pure helpers

  const ChannelPrefixes: seq<string> := ["whatsapp:", "tel:", "sms:"]

  /** `_strip_channel_prefix`: the first of the prefixes the number starts with is removed. */
  function StripChannelPrefix(phone: string): (r: string)
    ensures phone == [] ==> r == phone
    ensures r == phone || exists k :: 0 <= k < |ChannelPrefixes| && phone == ChannelPrefixes[k] + r
    ensures |r| <= |phone|
  {
    if phone == [] then phone
    else if StartsWith(phone, "whatsapp:") then
      assert phone == ChannelPrefixes[0] + phone[9..];
      phone[9..]
    else if StartsWith(phone, "tel:") then
      assert phone == ChannelPrefixes[1] + phone[4..];
      phone[4..]
    else if StartsWith(phone, "sms:") then
      assert phone == ChannelPrefixes[2] + phone[4..];
      phone[4..]
    else phone
  }

  /** The character-by-character escape the three replacements of `_twiml` amount to. */
  function EscapeChar(c: char): string {
    if c == '&' then "&amp;" else if c == '<' then "&lt;" else if c == '>' then "&gt;" else [c]
  }

  function EscapeText(s: string): (r: string)
    ensures forall i :: 0 <= i < |r| ==> r[i] != '<' && r[i] != '>'
  {
    if s == [] then [] else EscapeChar(s[0]) + EscapeText(s[1..])
  }

  /** The message text as `_twiml` writes it: '&' first, then '<', then '>'. */
  function Escape(message: string): string {
    ReplaceAll(ReplaceAll(ReplaceAll(message, "&", "&amp;"), "<", "&lt;"), ">", "&gt;")
  }

  /** `_twiml` */
  function Twiml(message: string): (r: string)
    ensures r == "<Response><Message>" + Escape(message) + "</Message></Response>"
  {
    "<Response><Message>" + Escape(message) + "</Message></Response>"
  }

  /** An XML reader's view of the escaped text: each entity back to its character. */
  function Unescape(s: string): string
    decreases |s|
  {
    if s == [] then []
    else if StartsWith(s, "&amp;") then "&" + Unescape(s[5..])
    else if StartsWith(s, "&lt;") then "<" + Unescape(s[4..])
    else if StartsWith(s, "&gt;") then ">" + Unescape(s[4..])
    else [s[0]] + Unescape(s[1..])
  }

  predicate IsBreak(c: char) {
    c == ' ' || c == '\n'
  }

  /** `_has_word`: the word surrounded by spaces, after newlines became spaces and the text was
      padded with a space on each side. */
  predicate HasWord(text: string, word: string) {
    var t := " " + ReplaceAll(text, "\n", " ") + " ";
    var w := " " + word + " ";
    Contains(t, w) || StartsWith(t, w) || EndsWith(t, w)
  }

  /** The word occurs at `i` with a break or an end of the text on each side. */
  predicate WordAt(text: string, word: string, i: nat) {
    && i + |word| <= |text| && text[i..i + |word|] == word
    && (i == 0 || IsBreak(text[i - 1]))
    && (i + |word| == |text| || IsBreak(text[i + |word|]))
  }

  // ---------------------------------------------------------------------------
  // The subscriber table and the replies

  /** A stored item, without its timestamp and fixed fields (channel, purpose, updated_by). The
      status is absent for a legacy record. */
  datatype Subscriber = Subscriber(phone: string, status: Option<string>, source: string, evidence: map<string, string>)

  /** An HTTP response: a TwiML body, or a JSON object of string fields. */
  datatype Response = Xml(statusCode: int, body: string) | Json(statusCode: int, fields: map<string, string>)

  const NotSubscribedReply := "You are not subscribed yet. Reply JOIN MITZVAH to subscribe, or STOP to opt out."
  const SubscribedReply := "You’re subscribed to Daily Mitzvah. Reply STOP to opt out."
  const UnsubscribedReply := "You are unsubscribed. Reply JOIN MITZVAH to re-subscribe."
  const StatusUnsetReply := "Your status is not set. Reply JOIN MITZVAH to subscribe, or STOP to opt out."
  const AlreadyUnsubscribedReply := "You are already unsubscribed. Reply JOIN MITZVAH to re-subscribe."
  const AlreadySubscribedReply := "You’re already subscribed to Daily Mitzvah. Reply STOP to opt out."
  const GuidanceReply := "Reply JOIN MITZVAH to subscribe, or STOP to opt out."

  /** `form.get(key) or ""` */
  function Get(form: map<string, string>, key: string): string {
    if key in form then form[key] else ""
  }

  /** Python's `a or b` on strings. */
  function Or(a: string, b: string): string {
    if a != [] then a else b
  }

  predicate IsStopWord(txt: string) {
    txt == "stop" || txt == "unsubscribe" || txt == "cancel"
  }

  predicate IsJoinText(txt: string) {
    Contains(txt, "join") || Contains(txt, "start") || txt == "yes" || txt == "join mitzvah" || HasWord(txt, "subscribe")
  }

  /** The branch of the handler a lower-cased message takes. */
  datatype Command = StatusQuery | StopRequest | JoinRequest | Unrecognised

  /** The handler's tests on the message text, in its order: a status inquiry, then a stop word,
      then a join text. */
  function CommandOf(txt: string): Command {
    if StartsWith(txt, "status") then StatusQuery
    else if IsStopWord(txt) then StopRequest
    else if IsJoinText(txt) then JoinRequest
    else Unrecognised
  }

  /** What a message does: the reply and the record written, if any. */
  datatype Outcome = Outcome(reply: string, write: Option<Subscriber>)

  /** The fields `_handle_twilio_inbound` reads from the form. */
  datatype Message = Message(fromNum: string, toNum: string, messageSid: string, bodyText: string)

  function ParseMessage(form: map<string, string>): (m: Message)
    ensures m.fromNum == StripChannelPrefix(Get(form, "From"))
    ensures m.bodyText == Strip(Get(form, "Body"))
  {
    Message(StripChannelPrefix(Get(form, "From")), StripChannelPrefix(Get(form, "To")),
            Or(Get(form, "MessageSid"), Get(form, "SmsMessageSid")), Strip(Get(form, "Body")))
  }

  /** The handler's decision for a parsed message, whose lower-cased text takes branch
      `command`, on the table as it stands. */
  function Decide(table: map<string, Subscriber>, m: Message, command: Command): (o: Outcome)
    ensures o.write.Some? ==> o.write.value.phone == m.fromNum
    ensures o.write.Some? ==> o.write.value.source == "whatsapp_keyword"
  {
    var currentStatus := if m.fromNum in table then table[m.fromNum].status else None;
    match command
    case StatusQuery =>
      if m.fromNum !in table then Outcome(NotSubscribedReply, None)
      else if currentStatus == Some("opted_in") then Outcome(SubscribedReply, None)
      else if currentStatus == Some("opted_out") then Outcome(UnsubscribedReply, None)
      else Outcome(StatusUnsetReply, None)
    case StopRequest =>
      if currentStatus == Some("opted_out") then Outcome(AlreadyUnsubscribedReply, None)
      else Outcome(UnsubscribedReply, Some(Subscriber(m.fromNum, Some("opted_out"), "whatsapp_keyword",
                                                       map["messageSid" := m.messageSid, "to" := m.toNum])))
    case JoinRequest =>
      if currentStatus == Some("opted_in") then Outcome(AlreadySubscribedReply, None)
      else Outcome(SubscribedReply, Some(Subscriber(m.fromNum, Some("opted_in"), "whatsapp_keyword",
                                                    map["messageSid" := m.messageSid, "to" := m.toNum, "body" := m.bodyText])))
    case Unrecognised => Outcome(GuidanceReply, None)
  }

  /** `_handle_twilio_inbound` on the table as it stands. */
  function TwilioOutcome(table: map<string, Subscriber>, form: map<string, string>): (o: Outcome)
    ensures o.write.Some? ==> o.write.value.phone == StripChannelPrefix(Get(form, "From"))
    ensures o.write.Some? ==> o.write.value.source == "whatsapp_keyword"
  {
    var m := ParseMessage(form);
    Decide(table, m, CommandOf(Lower(m.bodyText)))
  }

  /** The table after a write, if any. */
  function Apply(table: map<string, Subscriber>, write: Option<Subscriber>): map<string, Subscriber> {
    if write.Some? then table[write.value.phone := write.value] else table
  }

  const OptOutActions: set<string> := {"optout", "unsubscribe", "stop"}
  const Truthy: set<string> := {"true", "1", "yes", "on"}

  /** `(form.get(k) if form else None) or json.get(k) or query.get(k)` */
  function Field(query: map<string, string>, bodyJson: map<string, string>, bodyForm: map<string, string>, key: string): string {
    Or(Get(bodyForm, key), Or(Get(bodyJson, key), Get(query, key)))
  }

  /** `_handle_web_optin`: the response and the record written, if any. */
  function WebOutcome(query: map<string, string>, bodyJson: map<string, string>, bodyForm: map<string, string>)
    : (r: (Response, Option<Subscriber>))
    ensures r.1.Some? ==> r.1.value.phone == StripChannelPrefix(Field(query, bodyJson, bodyForm, "phone")) != []
  {
    var phone := StripChannelPrefix(Field(query, bodyJson, bodyForm, "phone"));
    var consent := Field(query, bodyJson, bodyForm, "consent");
    var action := Or(Field(query, bodyJson, bodyForm, "action"), "optin");
    if phone == [] then (Json(400, map["error" := "Missing phone"]), None)
    else if Lower(action) in OptOutActions then
      (Json(200, map["status" := "ok", "message" := "Unsubscribed"]),
       Some(Subscriber(phone, Some("opted_out"), "web_form", map["action" := action])))
    else
      var status := if Lower(consent) in Truthy || Lower(action) == "optin" then "opted_in" else "opted_out";
      (Json(200, map["status" := "ok", "message" := if status == "opted_in" then "Subscribed" else "Not subscribed"]),
       Some(Subscriber(phone, Some(status), "web_form", map["action" := action])))
  }

  // ---------------------------------------------------------------------------
  // The handlers, over a store

  class SubscriberStore {
    /** The DynamoDB table, keyed by phone number. */
    var subscribers: map<string, Subscriber>

    constructor(initial: map<string, Subscriber>)
      ensures subscribers == initial
    {
      subscribers := initial;
    }

    /** `_upsert_subscriber` */
    method Upsert(phone: string, status: string, source: string, evidence: map<string, string>)
      modifies this
      ensures subscribers == old(subscribers)[phone := Subscriber(phone, Some(status), source, evidence)]
    {
      subscribers := subscribers[phone := Subscriber(phone, Some(status), source, evidence)];
    }

    /** `_handle_twilio_inbound` */
    method HandleTwilioInbound(form: map<string, string>) returns (resp: Response)
      modifies this
      ensures var o := TwilioOutcome(old(subscribers), form);
        resp == Xml(200, Twiml(o.reply)) && subscribers == Apply(old(subscribers), o.write)
    {
      var message := ParseMessage(form);
      var txt := Lower(message.bodyText);
      var reply := Respond(message, CommandOf(txt));
      resp := Xml(200, Twiml(reply));
    }

    /** The branches of `_handle_twilio_inbound` after the form is read: the reply text, and the
        write if the branch makes one. */
    method Respond(m: Message, command: Command) returns (reply: string)
      modifies this
      ensures var o := Decide(old(subscribers), m, command);
        reply == o.reply && subscribers == Apply(old(subscribers), o.write)
    {
      var existing := if m.fromNum in subscribers then Some(subscribers[m.fromNum]) else None;
      var currentStatus := if existing.Some? then existing.value.status else None;

      match command {
        case StatusQuery =>
          if existing.None? {
            reply := NotSubscribedReply;
          } else if currentStatus == Some("opted_in") {
            reply := SubscribedReply;
          } else if currentStatus == Some("opted_out") {
            reply := UnsubscribedReply;
          } else {
            reply := StatusUnsetReply;
          }
        case StopRequest =>
          if currentStatus == Some("opted_out") {
            reply := AlreadyUnsubscribedReply;
          } else {
            Upsert(m.fromNum, "opted_out", "whatsapp_keyword", map["messageSid" := m.messageSid, "to" := m.toNum]);
            reply := UnsubscribedReply;
          }
        case JoinRequest =>
          if currentStatus == Some("opted_in") {
            reply := AlreadySubscribedReply;
          } else {
            Upsert(m.fromNum, "opted_in", "whatsapp_keyword",
                   map["messageSid" := m.messageSid, "to" := m.toNum, "body" := m.bodyText]);
            reply := SubscribedReply;
          }
        case Unrecognised =>
          reply := GuidanceReply;
      }
    }

    /** `_handle_web_optin` */
    method HandleWebOptin(query: map<string, string>, bodyJson: map<string, string>, bodyForm: map<string, string>)
      returns (resp: Response)
      modifies this
      ensures resp == WebOutcome(query, bodyJson, bodyForm).0
      ensures subscribers == Apply(old(subscribers), WebOutcome(query, bodyJson, bodyForm).1)
    {
      var phone := StripChannelPrefix(Field(query, bodyJson, bodyForm, "phone"));
      var consent := Field(query, bodyJson, bodyForm, "consent");
      var action := Or(Field(query, bodyJson, bodyForm, "action"), "optin");
      if phone == [] {
        return Json(400, map["error" := "Missing phone"]);
      }
      if Lower(action) in OptOutActions {
        Upsert(phone, "opted_out", "web_form", map["action" := action]);
        return Json(200, map["status" := "ok", "message" := "Unsubscribed"]);
      }
      var status := if Lower(consent) in Truthy || Lower(action) == "optin" then "opted_in" else "opted_out";
      Upsert(phone, status, "web_form", map["action" := action]);
      resp := Json(200, map["status" := "ok", "message" := if status == "opted_in" then "Subscribed" else "Not subscribed"]);
    }

    /** `lambda_handler` after the event is parsed: a Twilio message when the form has a sender
        and a body, the web opt-in otherwise. */
    method HandlePost(query: map<string, string>, bodyJson: map<string, string>, bodyForm: map<string, string>)
      returns (resp: Response)
      modifies this
      ensures Get(bodyForm, "From") != [] && (Get(bodyForm, "Body") != [] || Get(bodyForm, "SmsBody") != []) ==>
        resp == Xml(200, Twiml(TwilioOutcome(old(subscribers), bodyForm).reply))
        && subscribers == Apply(old(subscribers), TwilioOutcome(old(subscribers), bodyForm).write)
      ensures !(Get(bodyForm, "From") != [] && (Get(bodyForm, "Body") != [] || Get(bodyForm, "SmsBody") != [])) ==>
        resp == WebOutcome(query, bodyJson, bodyForm).0
        && subscribers == Apply(old(subscribers), WebOutcome(query, bodyJson, bodyForm).1)
    {
      if Get(bodyForm, "From") != [] && (Get(bodyForm, "Body") != [] || Get(bodyForm, "SmsBody") != []) {
        resp := HandleTwilioInbound(bodyForm);
      } else {
        resp := HandleWebOptin(query, bodyJson, bodyForm);
      }
    }
  }

  // ---------------------------------------------------------------------------
  // Properties of the helpers

  /** Each channel prefix is removed from a number that carries it. */
  lemma StripChannelPrefixRemoves(phone: string)
    ensures StripChannelPrefix("whatsapp:" + phone) == phone
    ensures StripChannelPrefix("tel:" + phone) == phone
    ensures StripChannelPrefix("sms:" + phone) == phone
  {
    var w, t, m := "whatsapp:" + phone, "tel:" + phone, "sms:" + phone;
    assert StripChannelPrefix(w) == phone by {
      assert w[..9] == "whatsapp:" && w[9..] == phone;
    }
    assert StripChannelPrefix(t) == phone by {
      assert t[0] == 't' && !StartsWith(t, "whatsapp:");
      assert t[..4] == "tel:" && t[4..] == phone;
    }
    assert StripChannelPrefix(m) == phone by {
      assert m[0] == 's' && !StartsWith(m, "whatsapp:") && !StartsWith(m, "tel:");
      assert m[..4] == "sms:" && m[4..] == phone;
    }
  }

  /** Only one prefix is removed. */
  lemma StripChannelPrefixOnce()
    ensures StripChannelPrefix("whatsapp:tel:1") == "tel:1"
  {
    StripChannelPrefixRemoves("tel:1");
  }

  lemma ReplaceCharCons(x: char, rest: string, c: char, rep: string)
    ensures ReplaceAll([x] + rest, [c], rep) == (if x == c then rep else [x]) + ReplaceAll(rest, [c], rep)
  {
    assert ([x] + rest)[1..] == rest;
  }

  lemma {:induction false} ReplaceCharAppend(a: string, b: string, c: char, rep: string)
    ensures ReplaceAll(a + b, [c], rep) == ReplaceAll(a, [c], rep) + ReplaceAll(b, [c], rep)
  {
    if a != [] {
      assert a + b == [a[0]] + (a[1..] + b);
      ReplaceCharCons(a[0], a[1..] + b, c, rep);
      ReplaceCharCons(a[0], a[1..], c, rep);
      assert a == [a[0]] + a[1..];
      ReplaceCharAppend(a[1..], b, c, rep);
    } else {
      assert a + b == b;
    }
  }

  /** The three replacements of `_twiml` escape each character on its own: an '&' that an
      earlier replacement introduced is never escaped again. */
  lemma {:induction false} EscapeIsPerChar(s: string)
    ensures Escape(s) == EscapeText(s)
  {
    if s != [] {
      assert s == [s[0]] + s[1..];
      EscapeAppend([s[0]], s[1..]);
      EscapeOneChar(s[0]);
      EscapeIsPerChar(s[1..]);
    } else {
      assert Escape(s) == [];
    }
  }

  lemma EscapeAppend(a: string, b: string)
    ensures Escape(a + b) == Escape(a) + Escape(b)
  {
    ReplaceCharAppend(a, b, '&', "&amp;");
    var a1, b1 := ReplaceAll(a, "&", "&amp;"), ReplaceAll(b, "&", "&amp;");
    ReplaceCharAppend(a1, b1, '<', "&lt;");
    var a2, b2 := ReplaceAll(a1, "<", "&lt;"), ReplaceAll(b1, "<", "&lt;");
    ReplaceCharAppend(a2, b2, '>', "&gt;");
  }

  lemma EscapeOneChar(x: char)
    ensures Escape([x]) == EscapeChar(x)
  {
    if x == '&' {
      EscapeAmp();
    } else if x == '<' {
      EscapeLt();
    } else if x == '>' {
      EscapeGt();
    } else {
      EscapePlain(x);
    }
  }

  lemma EscapeAmp()
    ensures Escape("&") == "&amp;"
  {
    assert ReplaceAll("&", "&", "&amp;") == "&amp;" by {
      ReplaceCharCons('&', [], '&', "&amp;");
    }
    CharAbsent("&amp;", '<', "&lt;");
    CharAbsent("&amp;", '>', "&gt;");
  }

  lemma EscapeLt()
    ensures Escape("<") == "&lt;"
  {
    assert ReplaceAll("<", "&", "&amp;") == "<" by {
      ReplaceCharCons('<', [], '&', "&amp;");
    }
    assert ReplaceAll("<", "<", "&lt;") == "&lt;" by {
      ReplaceCharCons('<', [], '<', "&lt;");
    }
    CharAbsent("&lt;", '>', "&gt;");
  }

  lemma EscapeGt()
    ensures Escape(">") == "&gt;"
  {
    ReplaceCharCons('>', [], '&', "&amp;");
    ReplaceCharCons('>', [], '<', "&lt;");
    ReplaceCharCons('>', [], '>', "&gt;");
  }

  lemma EscapePlain(x: char)
    requires x != '&' && x != '<' && x != '>'
    ensures Escape([x]) == [x]
  {
    assert [x] + [] == [x];
    ReplaceCharCons(x, [], '&', "&amp;");
    ReplaceCharCons(x, [], '<', "&lt;");
    ReplaceCharCons(x, [], '>', "&gt;");
  }

  /** A text without `c` is left alone by its replacement. */
  lemma {:induction false} CharAbsent(s: string, c: char, rep: string)
    requires forall k :: 0 <= k < |s| ==> s[k] != c
    ensures ReplaceAll(s, [c], rep) == s
  {
    if s != [] {
      assert s == [s[0]] + s[1..];
      ReplaceCharCons(s[0], s[1..], c, rep);
      CharAbsent(s[1..], c, rep);
    }
  }

  /** Escaping loses nothing: reading the entities back gives the message. */
  lemma {:induction false} UnescapeEscape(s: string)
    ensures Unescape(EscapeText(s)) == s
  {
    if s != [] {
      var x := s[0];
      var rest := EscapeText(s[1..]);
      UnescapeEscape(s[1..]);
      UnescapeOne(x, rest);
      assert s == [x] + s[1..];
    }
  }

  /** Reading back one escaped character in front of any text. */
  lemma UnescapeOne(x: char, rest: string)
    ensures Unescape(EscapeChar(x) + rest) == [x] + Unescape(rest)
  {
    if x == '&' {
      UnescapeAmp(rest);
    } else if x == '<' || x == '>' {
      UnescapeAngle(x, rest);
    } else {
      var e := [x] + rest;
      assert e[0] == x && e[1..] == rest;
    }
  }

  lemma UnescapeAmp(rest: string)
    ensures Unescape("&amp;" + rest) == "&" + Unescape(rest)
  {
    var e := "&amp;" + rest;
    assert e[..5] == "&amp;" && e[5..] == rest;
  }

  /** Reading back "&lt;" or "&gt;": the entity is not "&amp;", and a "&gt;" is not "&lt;". */
  lemma UnescapeAngle(x: char, rest: string)
    requires x == '<' || x == '>'
    ensures Unescape(EscapeChar(x) + rest) == [x] + Unescape(rest)
  {
    var e := EscapeChar(x) + rest;
    assert e[1] == (if x == '<' then 'l' else 'g');
    assert !StartsWith(e, "&amp;");
    assert e[..4] == EscapeChar(x) && e[4..] == rest;
  }

  /** The reply body carries the message as one text node: no '<' or '>' of the message survives
      and the text reads back as the message. */
  lemma TwimlSafe(message: string)
    ensures forall i :: 0 <= i < |Escape(message)| ==> Escape(message)[i] != '<' && Escape(message)[i] != '>'
    ensures Unescape(Escape(message)) == message
  {
    EscapeIsPerChar(message);
    UnescapeEscape(message);
  }

  /** `_has_word` finds the word exactly where it stands between breaks (space, newline) or the
      ends of the text; the `startswith`/`endswith` tests add nothing to the `in` test. */
  lemma HasWordIff(text: string, word: string)
    requires forall k :: 0 <= k < |word| ==> !IsBreak(word[k])
    ensures HasWord(text, word) <==> exists i :: 0 <= i <= |text| && WordAt(text, word, i)
  {
    var r := ReplaceAll(text, "\n", " ");
    ReplaceNewlines(text);
    var t := " " + r + " ";
    var w := " " + word + " ";
    ContainsAt(t, w);
    if EndsWith(t, w) {
      assert t[|t| - |w|..] == w;
      assert StartsWith(t[|t| - |w|..], w);
    }
    if StartsWith(t, w) {
      assert t[0..] == t;
    }
    assert HasWord(text, word) <==> exists j :: 0 <= j <= |t| - |w| && StartsWith(t[j..], w);
    forall j | 0 <= j <= |t| - |w|
      ensures StartsWith(t[j..], w) <==> WordAt(text, word, j)
    {
      WindowIff(text, word, r, j);
    }
    if HasWord(text, word) {
      var j :| 0 <= j <= |t| - |w| && StartsWith(t[j..], w);
      assert WordAt(text, word, j);
    }
    if i :| 0 <= i <= |text| && WordAt(text, word, i) {
      assert i <= |t| - |w|;
      assert StartsWith(t[i..], w);
    }
  }

  /** Replacing newlines by spaces keeps every other character in place. */
  lemma {:induction false} ReplaceNewlines(text: string)
    ensures |ReplaceAll(text, "\n", " ")| == |text|
    ensures forall k :: 0 <= k < |text| ==>
      ReplaceAll(text, "\n", " ")[k] == (if text[k] == '\n' then ' ' else text[k])
  {
    if text != [] {
      assert text == [text[0]] + text[1..];
      ReplaceCharCons(text[0], text[1..], '\n', " ");
      ReplaceNewlines(text[1..]);
    }
  }

  /** The padded window at `j` is " word " exactly when the word stands at `j` in the text. */
  lemma WindowIff(text: string, word: string, r: string, j: nat)
    requires forall k :: 0 <= k < |word| ==> !IsBreak(word[k])
    requires |r| == |text| && forall k :: 0 <= k < |text| ==> r[k] == (if text[k] == '\n' then ' ' else text[k])
    requires j + |word| + 2 <= |r| + 2
    ensures StartsWith((" " + r + " ")[j..], " " + word + " ") <==> WordAt(text, word, j)
  {
    var t := " " + r + " ";
    var w := " " + word + " ";
    assert t[j] == ' ' <==> (j == 0 || IsBreak(text[j - 1]));
    assert t[j + 1 + |word|] == ' ' <==> (j + |word| == |text| || IsBreak(text[j + |word|]));
    assert (forall k :: 0 <= k < |word| ==> t[j + 1 + k] == word[k]) <==> text[j..j + |word|] == word by {
      if forall k :: 0 <= k < |word| ==> t[j + 1 + k] == word[k] {
        forall k | 0 <= k < |word| ensures text[j + k] == word[k] {
          assert t[j + 1 + k] == r[j + k];
        }
      }
      if text[j..j + |word|] == word {
        forall k | 0 <= k < |word| ensures t[j + 1 + k] == word[k] {
          assert text[j + k] == word[k];
        }
      }
    }
    if StartsWith(t[j..], w) {
      assert forall k :: 0 <= k < |w| ==> t[j + k] == w[k];
    }
    if WordAt(text, word, j) {
      assert forall k :: 0 <= k < |w| ==> t[j..][k] == w[k];
    }
  }

  // ---------------------------------------------------------------------------
  // Properties of the handlers

  /** The text of a message, as the handler tests it. */
  function MessageText(form: map<string, string>): string {
    Lower(Strip(Get(form, "Body")))
  }

  /** A status inquiry never writes. */
  lemma StatusNeverWrites(table: map<string, Subscriber>, form: map<string, string>)
    requires StartsWith(MessageText(form), "status")
    ensures TwilioOutcome(table, form).write.None?
  {
  }

  /** STOP, UNSUBSCRIBE or CANCEL leaves the sender opted out, writing only when they were not. */
  lemma StopOptsOut(table: map<string, Subscriber>, form: map<string, string>)
    requires IsStopWord(MessageText(form))
    ensures var fromNum := StripChannelPrefix(Get(form, "From"));
      var after := Apply(table, TwilioOutcome(table, form).write);
      && fromNum in after && after[fromNum].status == Some("opted_out")
      && (TwilioOutcome(table, form).write.None? <==> fromNum in table && table[fromNum].status == Some("opted_out"))
  {
    StopWordNotStatus(MessageText(form));
  }

  lemma StopWordNotStatus(txt: string)
    requires IsStopWord(txt)
    ensures !StartsWith(txt, "status")
  {
    if txt == "unsubscribe" {
      assert txt[..6][0] == 'u';
    } else if txt == "cancel" {
      assert txt[0] == 'c';
    }
  }

  /** A join message leaves the sender opted in, writing only when they were not. */
  lemma JoinOptsIn(table: map<string, Subscriber>, form: map<string, string>)
    requires !StartsWith(MessageText(form), "status") && !IsStopWord(MessageText(form))
    requires IsJoinText(MessageText(form))
    ensures var fromNum := StripChannelPrefix(Get(form, "From"));
      var after := Apply(table, TwilioOutcome(table, form).write);
      && fromNum in after && after[fromNum].status == Some("opted_in")
      && (TwilioOutcome(table, form).write.None? <==> fromNum in table && table[fromNum].status == Some("opted_in"))
  {
  }

  /** Any other text gets the guidance reply and changes nothing. */
  lemma OtherTextGuidance(table: map<string, Subscriber>, form: map<string, string>)
    requires !StartsWith(MessageText(form), "status") && !IsStopWord(MessageText(form))
    requires !IsJoinText(MessageText(form))
    ensures TwilioOutcome(table, form) == Outcome(GuidanceReply, None)
  {
  }

  /** A write only ever touches the sender's record. */
  lemma TwilioTouchesOnlySender(table: map<string, Subscriber>, form: map<string, string>, phone: string)
    requires phone != StripChannelPrefix(Get(form, "From")) && phone in table
    ensures var after := Apply(table, TwilioOutcome(table, form).write);
      phone in after && after[phone] == table[phone]
  {
  }

  /** Delivering the same message twice has the effect of delivering it once: the repeat only
      confirms. */
  lemma TwilioIdempotent(table: map<string, Subscriber>, form: map<string, string>)
    ensures var once := Apply(table, TwilioOutcome(table, form).write);
      TwilioOutcome(once, form).write == None
  {
    var txt := MessageText(form);
    if !StartsWith(txt, "status") && IsStopWord(txt) {
      StopOptsOut(table, form);
    } else if !StartsWith(txt, "status") && IsJoinText(txt) {
      JoinOptsIn(table, form);
    }
  }

  /** A web opt-in without a phone number is refused with 400 and writes nothing. */
  lemma WebMissingPhone(query: map<string, string>, bodyJson: map<string, string>, bodyForm: map<string, string>)
    requires StripChannelPrefix(Field(query, bodyJson, bodyForm, "phone")) == []
    ensures WebOutcome(query, bodyJson, bodyForm) == (Json(400, map["error" := "Missing phone"]), None)
  {
  }

  /** With a phone number, the web form always writes; the status is opted_out for an opt-out
      action, and otherwise opted_in exactly when the consent is truthy or the action is the
      default "optin". */
  lemma WebStatus(query: map<string, string>, bodyJson: map<string, string>, bodyForm: map<string, string>)
    requires StripChannelPrefix(Field(query, bodyJson, bodyForm, "phone")) != []
    ensures var w := WebOutcome(query, bodyJson, bodyForm).1;
      var action := Or(Field(query, bodyJson, bodyForm, "action"), "optin");
      && w.Some?
      && (Lower(action) in OptOutActions ==> w.value.status == Some("opted_out"))
      && (Lower(action) !in OptOutActions ==>
            (w.value.status == Some("opted_in") <==>
               (Lower(Field(query, bodyJson, bodyForm, "consent")) in Truthy || Lower(action) == "optin")))
  {
  }
}
