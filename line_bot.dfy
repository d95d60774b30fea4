/** The LINE push notification: the default message text and the decision
    of `sendLineNotification`, with the push call as a function parameter. */
module LineBot {
  import opened Wrappers
  import opened Text
  import opened Schema
  import opened StopOrder

  const StartFallback := "起點"
  const EndFallback := "終點"
  const Pending := "計算中"
  const LinkPending := "連結生成中"

  /** The "from" address: the first stop flagged start, else the first
      stop, else a placeholder; an empty address counts as missing. */
  function StartLabel(addresses: seq<Address>): (s: string)
    ensures s != ""
  {
    var flagged := FirstStart(addresses);
    if flagged.Some? && flagged.value.address != "" then flagged.value.address
    else if |addresses| > 0 && addresses[0].address != "" then addresses[0].address
    else StartFallback
  }

  /** The "to" address: the first stop flagged end, else the last stop,
      else a placeholder. */
  function EndLabel(addresses: seq<Address>): (s: string)
    ensures s != ""
  {
    var flagged := FirstEnd(addresses);
    if flagged.Some? && flagged.value.address != "" then flagged.value.address
    else if |addresses| > 0 && addresses[|addresses| - 1].address != "" then addresses[|addresses| - 1].address
    else EndFallback
  }

  /** Which stop names the start: the first flagged one when there is
      one, the first stop otherwise, the placeholder for no stops. */
  lemma StartLabelChoice(addresses: seq<Address>)
    ensures addresses == [] ==> StartLabel(addresses) == StartFallback
    ensures forall i :: 0 <= i < |addresses| && IsStart(addresses[i]) && addresses[i].address != ""
                        && (forall j :: 0 <= j < i ==> !IsStart(addresses[j]))
                        ==> StartLabel(addresses) == addresses[i].address
    ensures addresses != [] && addresses[0].address != ""
            && (forall i :: 0 <= i < |addresses| ==> !IsStart(addresses[i]))
            ==> StartLabel(addresses) == addresses[0].address
  {
    forall i | 0 <= i < |addresses| && IsStart(addresses[i]) && (forall j :: 0 <= j < i ==> !IsStart(addresses[j]))
      ensures FirstStart(addresses) == Some(addresses[i])
    {
      var k :| 0 <= k < |addresses| && addresses[k] == FirstStart(addresses).value && IsStart(addresses[k])
               && forall j :: 0 <= j < k ==> !IsStart(addresses[j]);
      assert !(k < i) && !(i < k);
    }
  }

  /** Which stop names the end: the first flagged one when there is one,
      the last stop otherwise, the placeholder for no stops. */
  lemma EndLabelChoice(addresses: seq<Address>)
    ensures addresses == [] ==> EndLabel(addresses) == EndFallback
    ensures forall i :: 0 <= i < |addresses| && IsEnd(addresses[i]) && addresses[i].address != ""
                        && (forall j :: 0 <= j < i ==> !IsEnd(addresses[j]))
                        ==> EndLabel(addresses) == addresses[i].address
    ensures addresses != [] && addresses[|addresses| - 1].address != ""
            && (forall i :: 0 <= i < |addresses| ==> !IsEnd(addresses[i]))
            ==> EndLabel(addresses) == addresses[|addresses| - 1].address
  {
    forall i | 0 <= i < |addresses| && IsEnd(addresses[i]) && (forall j :: 0 <= j < i ==> !IsEnd(addresses[j]))
      ensures FirstEnd(addresses) == Some(addresses[i])
    {
      var k :| 0 <= k < |addresses| && addresses[k] == FirstEnd(addresses).value && IsEnd(addresses[k])
               && forall j :: 0 <= j < k ==> !IsEnd(addresses[j]);
      assert !(k < i) && !(i < k);
    }
  }

  const Header := "\U{1F697} 路徑規劃結果"

  /** `createDefaultMessage(route, addresses)`. */
  function DefaultMessage(route: Route, addresses: seq<Address>): string {
    Header + "\n\n"
    + "從: " + StartLabel(addresses) + "\n"
    + "到: " + EndLabel(addresses) + "\n"
    + "總距離: " + OrElse(route.distance, Pending) + "\n"
    + "預估時間: " + OrElse(route.duration, Pending) + "\n"
    + "地址數量: " + NatToString(|addresses|) + " 個地點\n\n"
    + "Google Maps 路線連結:\n" + OrElse(route.mapsUrl, LinkPending)
  }

  /** The lines of the default message, in order. */
  function MessageLines(route: Route, addresses: seq<Address>): (lines: seq<string>)
    ensures |lines| == 10
  {
    [Header, "",
     "從: " + StartLabel(addresses),
     "到: " + EndLabel(addresses),
     "總距離: " + OrElse(route.distance, Pending),
     "預估時間: " + OrElse(route.duration, Pending),
     "地址數量: " + NatToString(|addresses|) + " 個地點",
     "",
     "Google Maps 路線連結:",
     OrElse(route.mapsUrl, LinkPending)]
  }

  /** The default message is its lines joined by line breaks. */
  lemma DefaultMessageIsJoin(route: Route, addresses: seq<Address>)
    ensures DefaultMessage(route, addresses) == Join(MessageLines(route, addresses), '\n')
  {
    var l := MessageLines(route, addresses);
    JoinIsMessagePrefix(l);
    MessageText10(l, StartLabel(addresses), EndLabel(addresses), OrElse(route.distance, Pending),
                  OrElse(route.duration, Pending), NatToString(|addresses|), OrElse(route.mapsUrl, LinkPending));
  }

  lemma MessageText10(l: seq<string>, start: string, end: string, distance: string, duration: string,
                      count: string, link: string)
    requires l == [Header, "", "從: " + start, "到: " + end, "總距離: " + distance, "預估時間: " + duration,
                   "地址數量: " + count + " 個地點", "", "Google Maps 路線連結:", link]
    ensures MessagePrefix(l, 10) ==
              Header + "\n\n"
              + "從: " + start + "\n"
              + "到: " + end + "\n"
              + "總距離: " + distance + "\n"
              + "預估時間: " + duration + "\n"
              + "地址數量: " + count + " 個地點\n\n"
              + "Google Maps 路線連結:\n" + link
  {
    assert MessagePrefix(l, 2) == Header + "\n";
    assert MessagePrefix(l, 3) == Header + "\n\n" + "從: " + start;
    assert MessagePrefix(l, 4) == Header + "\n\n" + "從: " + start + "\n" + "到: " + end;
    assert MessagePrefix(l, 5) == MessagePrefix(l, 4) + "\n" + "總距離: " + distance;
    assert MessagePrefix(l, 6) == MessagePrefix(l, 5) + "\n" + "預估時間: " + duration;
    assert MessagePrefix(l, 7) == MessagePrefix(l, 6) + "\n" + "地址數量: " + count + " 個地點";
    assert MessagePrefix(l, 8) == MessagePrefix(l, 7) + "\n";
    assert MessagePrefix(l, 9) == MessagePrefix(l, 7) + "\n\n" + "Google Maps 路線連結:";
  }

  lemma JoinIsMessagePrefix(l: seq<string>)
    requires |l| == 10
    ensures Join(l, '\n') == MessagePrefix(l, 10)
  {
    assert l[..1] == [l[0]];
    for k := 1 to 10
      invariant Join(l[..k], '\n') == MessagePrefix(l, k)
    {
      JoinSnoc(l[..k], l[k], '\n');
      assert l[..k + 1] == l[..k] + [l[k]];
    }
    assert l[..10] == l;
  }

  /** The first `k` lines, each after the first preceded by a break. */
  function MessagePrefix(l: seq<string>, k: int): string
    requires |l| == 10 && 1 <= k <= 10
  {
    if k == 1 then l[0] else MessagePrefix(l, k - 1) + "\n" + l[k - 1]
  }

  lemma {:induction false} JoinSnoc(parts: seq<string>, p: string, sep: char)
    requires parts != []
    ensures Join(parts + [p], sep) == Join(parts, sep) + [sep] + p
  {
    if |parts| == 1 {
      assert (parts + [p])[1..] == [p];
    } else {
      assert (parts + [p])[1..] == parts[1..] + [p];
      JoinSnoc(parts[1..], p, sep);
    }
  }

  /** When the addresses and route texts hold no line break, the default
      message splits into its ten lines: header, blank, from, to, distance,
      duration, stop count, blank, link heading, link. */
  lemma DefaultMessageLines(route: Route, addresses: seq<Address>)
    requires '\n' !in StartLabel(addresses) && '\n' !in EndLabel(addresses)
    requires '\n' !in OrElse(route.distance, Pending) && '\n' !in OrElse(route.duration, Pending)
    requires '\n' !in OrElse(route.mapsUrl, LinkPending)
    ensures Split(DefaultMessage(route, addresses), '\n') == MessageLines(route, addresses)
  {
    var lines := MessageLines(route, addresses);
    DefaultMessageIsJoin(route, addresses);
    var count := NatToString(|addresses|);
    assert forall c :: c in count ==> IsDigit(c);
    LinesWithoutBreak(lines, StartLabel(addresses), EndLabel(addresses), OrElse(route.distance, Pending),
                      OrElse(route.duration, Pending), count, OrElse(route.mapsUrl, LinkPending));
    SplitJoin(lines, '\n');
  }

  /** No line of the message holds a line break when no filled-in text does. */
  lemma LinesWithoutBreak(l: seq<string>, start: string, end: string, distance: string, duration: string,
                          count: string, link: string)
    requires l == [Header, "", "從: " + start, "到: " + end, "總距離: " + distance, "預估時間: " + duration,
                   "地址數量: " + count + " 個地點", "", "Google Maps 路線連結:", link]
    requires '\n' !in start && '\n' !in end && '\n' !in distance && '\n' !in duration
    requires '\n' !in count && '\n' !in link
    ensures forall k :: 0 <= k < |l| ==> '\n' !in l[k]
  {
  }

  /** The LINE push request. */
  datatype PushRequest = PushRequest(to: string, text: string, authorization: string)

  /** What the push call produced: an HTTP status, or an exception. */
  datatype PushOutcome = Thrown | Status(code: int)

  /** `customMessage || createDefaultMessage(route, addresses)`. */
  function MessageText(route: Route, addresses: seq<Address>, customMessage: Option<string>): string {
    if Truthy(customMessage) then customMessage.value else DefaultMessage(route, addresses)
  }

  /** The request pushed, or none when no channel token is configured. */
  function PushFor(route: Route, addresses: seq<Address>, recipient: LineSettings,
                   customMessage: Option<string>, channelAccessToken: string): (p: Option<PushRequest>)
    ensures p.None? <==> channelAccessToken == ""
    ensures p.Some? ==> p.value.to == recipient.recipientId
  {
    if channelAccessToken == "" then None
    else Some(PushRequest(recipient.recipientId, MessageText(route, addresses, customMessage),
                          "Bearer " + channelAccessToken))
  }

  /** The message sent is the custom one verbatim when it is non-empty,
      the default message otherwise. */
  lemma PushedText(route: Route, addresses: seq<Address>, recipient: LineSettings,
                   customMessage: Option<string>, channelAccessToken: string)
    requires channelAccessToken != ""
    ensures customMessage.Some? && customMessage.value != "" ==>
              PushFor(route, addresses, recipient, customMessage, channelAccessToken).value.text == customMessage.value
    ensures customMessage.None? || customMessage.value == "" ==>
              PushFor(route, addresses, recipient, customMessage, channelAccessToken).value.text
              == DefaultMessage(route, addresses)
  {
  }

  /** `sendLineNotification`: true without sending when no token is set;
      otherwise true exactly when the push answered with status 200. */
  function SendLineNotification(route: Route, addresses: seq<Address>, recipient: LineSettings,
                                customMessage: Option<string>, channelAccessToken: string,
                                push: PushRequest -> PushOutcome): (ok: bool)
    ensures channelAccessToken == "" ==> ok
    ensures channelAccessToken != "" ==>
              (ok <==> push(PushFor(route, addresses, recipient, customMessage, channelAccessToken).value) == Status(200))
  {
    var request := PushFor(route, addresses, recipient, customMessage, channelAccessToken);
    if request.None? then true
    else
      var response := push(request.value);
      if response.Status? && response.code == 200 then true else false
  }
}
