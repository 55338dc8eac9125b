/**
 * plugins/modmail.py, ModMailClient.on_message: a direct message to the
 * modmail account is copied into the staff channel. The header and the
 * message text are cut into slices of 2000 characters; the footer (the
 * attachments, and a role mention when the user has no active thread) goes
 * on the first slice it fits on, or else in a message of its own. Only the
 * first copy replies to the active thread, and a new thread is recorded on
 * the first copy when there was none.
 *
 * The sends are returned as a list of messages; the lookup of the active
 * thread is the parameter `threadId`.
 */
module ModMail {
  import opened Wrappers
  import opened Text
  import DiscordUtil

  /** The longest message Discord accepts. */
  const Limit := 2000

  datatype Attachment = Attachment(filename: string, url: string)

  datatype Author = Author(name: string, discriminator: string, id: nat)

  /** A copy sent to the staff channel, with the message it replies to, if any. */
  datatype Sent = Sent(text: string, reference: Option<nat>)

  /** The header line: name, discriminator, id, a mention of the author and the time of the message. */
  function Header(author: Author, created: string): (r: string)
    ensures "**From " <= r
  {
    "**From " + author.name + "#" + author.discriminator + "** " + NatToString(author.id) + " "
      + DiscordUtil.UserMention(author.id) + " on " + created + ":\n\n"
  }

  /** One line per attachment, in order. */
  function AttachmentLines(attachments: seq<Attachment>): (r: string)
    ensures r == "" <==> attachments == []
  {
    if attachments == [] then ""
    else "\n**Attachment:** " + attachments[0].filename + " " + attachments[0].url + AttachmentLines(attachments[1..])
  }

  /** The lines of two lists of attachments are the lines of each, in order. */
  lemma {:induction false} AttachmentLinesAppend(a: seq<Attachment>, b: seq<Attachment>)
    ensures AttachmentLines(a + b) == AttachmentLines(a) + AttachmentLines(b)
  {
    if a == [] {
      assert a + b == b;
    } else {
      assert (a + b)[0] == a[0] && (a + b)[1..] == a[1..] + b;
      AttachmentLinesAppend(a[1..], b);
    }
  }

  /** The footer: the attachment lines, the role mention without an active thread, and a leading line break. */
  function Footer(attachments: seq<Attachment>, threadActive: bool, roleId: nat): string
  {
    var body := AttachmentLines(attachments) + (if threadActive then "" else "\n" + DiscordUtil.RoleMention(roleId));
    if body == "" then "" else "\n" + body
  }

  /**
   * The footer is empty exactly when there are no attachments and a thread
   * is active; otherwise it is a line break, the attachment lines, and the
   * role mention exactly when no thread is active.
   */
  lemma FooterShape(attachments: seq<Attachment>, threadActive: bool, roleId: nat)
    ensures var f := Footer(attachments, threadActive, roleId);
      (f == "" <==> attachments == [] && threadActive)
      && (f != "" ==> f[0] == '\n' && AttachmentLines(attachments) <= f[1..])
      && (threadActive ==> f == (if attachments == [] then "" else "\n" + AttachmentLines(attachments)))
      && (!threadActive ==> f == "\n" + AttachmentLines(attachments) + "\n" + DiscordUtil.RoleMention(roleId))
  {
    var a := AttachmentLines(attachments);
    var mention := "\n" + DiscordUtil.RoleMention(roleId);
    var body := a + (if threadActive then "" else mention);
    var f := Footer(attachments, threadActive, roleId);
    assert f == if body == "" then "" else "\n" + body;
    if threadActive {
      assert body == a;
    } else {
      assert body == a + mention && |mention| > 0;
      assert "\n" + body == "\n" + a + "\n" + DiscordUtil.RoleMention(roleId);
    }
    if body != "" {
      assert f[1..] == body;
    }
  }

  /**
   * (header + text)[i:i + 2000] for i in range(0, len, 2000): every slice
   * has between 1 and 2000 characters, and every slice but the last has 2000.
   */
  function Chunks(msg: string): (r: seq<string>)
    ensures r == [] <==> msg == []
    ensures forall k :: 0 <= k < |r| ==> 0 < |r[k]| <= Limit
    ensures forall k :: 0 <= k < |r| - 1 ==> |r[k]| == Limit
    decreases |msg|
  {
    if msg == [] then []
    else if |msg| <= Limit then [msg]
    else [msg[..Limit]] + Chunks(msg[Limit..])
  }

  /** The slices, put back together, are the whole message. */
  lemma {:induction false} ChunksConcat(msg: string)
    ensures Join("", Chunks(msg)) == msg
    decreases |msg|
  {
    if |msg| > Limit {
      ChunksConcat(msg[Limit..]);
      var rest := Chunks(msg[Limit..]);
      assert Chunks(msg) == [msg[..Limit]] + rest && rest != [];
      assert (Chunks(msg))[1..] == rest;
      assert msg == msg[..Limit] + "" + msg[Limit..];
    }
  }

  /** There are as many slices as steps of the range. */
  lemma {:induction false} ChunkCount(msg: string, k: nat)
    ensures |Chunks(msg)| > k <==> Limit * k < |msg|
    decreases |msg|
  {
    if |msg| > Limit && k > 0 {
      ChunkCount(msg[Limit..], k - 1);
      assert |Chunks(msg)| == 1 + |Chunks(msg[Limit..])|;
    }
  }

  /** The k-th slice starts at 2000 * k. */
  lemma {:induction false} ChunkAt(msg: string, k: nat)
    requires Limit * k < |msg|
    ensures k < |Chunks(msg)|
    ensures Chunks(msg)[k] == if Limit * k + Limit <= |msg| then msg[Limit * k..Limit * k + Limit] else msg[Limit * k..]
    decreases |msg|
  {
    ChunkCount(msg, k);
    if |msg| > Limit && k > 0 {
      var rest, b := msg[Limit..], Limit * (k - 1);
      assert Limit * k == Limit + b;
      ChunkAt(rest, k - 1);
      assert Chunks(msg)[k] == Chunks(rest)[k - 1];
      DropDrop(msg, Limit, b);
      if b + Limit <= |rest| {
        DropSlice(msg, Limit, b, b + Limit);
      }
    }
  }

  lemma DropDrop(s: string, a: nat, b: nat)
    requires a + b <= |s|
    ensures s[a..][b..] == s[a + b..]
  {
  }

  lemma DropSlice(s: string, a: nat, b: nat, e: nat)
    requires a <= |s| && b <= e <= |s| - a
    ensures s[a..][b..e] == s[a + b..a + e]
  {
  }

  predicate Fits(part: string, footer: string)
  {
    |part| + |footer| <= Limit
  }

  /** sent_footer after the loop: some slice took the footer. */
  predicate Taken(parts: seq<string>, footer: string)
  {
    exists j :: 0 <= j < |parts| && Fits(parts[j], footer)
  }

  lemma TakenStep(parts: seq<string>, footer: string, k: nat)
    requires k < |parts|
    ensures Taken(parts[..k + 1], footer) <==> Taken(parts[..k], footer) || Fits(parts[k], footer)
  {
    if Fits(parts[k], footer) {
      assert parts[..k + 1][k] == parts[k];
    }
    if Taken(parts[..k], footer) {
      var j :| 0 <= j < k && Fits(parts[..k][j], footer);
      assert parts[..k + 1][j] == parts[..k][j];
    }
  }

  /** The j-th copy: the j-th slice, with the footer when it fits, replying to the thread when first. */
  function Copy(parts: seq<string>, footer: string, threadId: Option<nat>, j: nat): (c: Sent)
    requires j < |parts|
    ensures parts[j] <= c.text
    ensures |parts[j]| <= Limit ==> |c.text| <= Limit
    ensures c.reference.Some? ==> j == 0
  {
    Sent(parts[j] + (if Fits(parts[j], footer) then footer else ""), if j == 0 then threadId else None)
  }

  /**
   * A non-empty footer fits at most on the last slice, since every other
   * slice already has 2000 characters: it goes out exactly once, on the last
   * slice when it fits there, or else in the extra message.
   */
  lemma FooterOnce(msg: string, footer: string)
    requires footer != ""
    ensures var parts := Chunks(msg);
      (forall j :: 0 <= j < |parts| - 1 ==> !Fits(parts[j], footer))
      && (Taken(parts, footer) <==> parts != [] && Fits(parts[|parts| - 1], footer))
  {
  }

  /** With an empty footer every slice takes it, and nothing is added to any slice. */
  lemma EmptyFooter(msg: string, threadId: Option<nat>)
    ensures var parts := Chunks(msg);
      (Taken(parts, "") <==> msg != [])
      && forall j :: 0 <= j < |parts| ==> Copy(parts, "", threadId, j).text == parts[j]
  {
    var parts := Chunks(msg);
    if msg != [] {
      assert Fits(parts[0], "");
    }
  }

  /** The copies sent so far are those of the first slices. */
  ghost predicate CopiesUpTo(sent: seq<Sent>, parts: seq<string>, footer: string, threadId: Option<nat>)
  {
    |sent| <= |parts| && forall j :: 0 <= j < |sent| ==> sent[j] == Copy(parts, footer, threadId, j)
  }

  lemma CopiesStep(sent: seq<Sent>, parts: seq<string>, footer: string, threadId: Option<nat>, copy: Sent)
    requires CopiesUpTo(sent, parts, footer, threadId) && |sent| < |parts|
    requires copy == Copy(parts, footer, threadId, |sent|)
    ensures CopiesUpTo(sent + [copy], parts, footer, threadId)
  {
    assert forall j :: 0 <= j < |sent| ==> (sent + [copy])[j] == sent[j];
  }

  /** The state of the relay loop after k slices, the k-th starting at i. */
  ghost predicate RelayInv(msg: string, footer: string, threadId: Option<nat>, i: nat, k: nat,
                           sent: seq<Sent>, copyFirst: bool, sentFooter: bool)
  {
    var parts := Chunks(msg);
    i == Limit * k && k <= |parts| && (i < |msg| <==> k < |parts|)
    && |sent| == k && (copyFirst <==> k > 0)
    && CopiesUpTo(sent, parts, footer, threadId)
    && (sentFooter <==> Taken(parts[..k], footer))
  }

  /** One iteration of the relay loop: the next slice, with the footer when it fits. */
  lemma RelayIter(msg: string, footer: string, threadId: Option<nat>, i: nat, k: nat,
                  sent: seq<Sent>, copyFirst: bool, sentFooter: bool)
    requires RelayInv(msg, footer, threadId, i, k, sent, copyFirst, sentFooter) && i < |msg|
    ensures var part := if i + Limit <= |msg| then msg[i..i + Limit] else msg[i..];
      var fits := |part| + |footer| <= Limit;
      var copy := Sent(if fits then part + footer else part, if !copyFirst then threadId else None);
      RelayInv(msg, footer, threadId, i + Limit, k + 1, sent + [copy], true, sentFooter || fits)
  {
    var parts := Chunks(msg);
    ChunkAt(msg, k);
    TakenStep(parts, footer, k);
    ChunkCount(msg, k + 1);
    var part := if i + Limit <= |msg| then msg[i..i + Limit] else msg[i..];
    assert part == parts[k];
    var fits := |part| + |footer| <= Limit;
    var copy := Sent(if fits then part + footer else part, if !copyFirst then threadId else None);
    assert copy == Copy(parts, footer, threadId, k);
    CopiesStep(sent, parts, footer, threadId, copy);
  }

  /** After the loop: the footer follows the copies unless a slice took it. */
  lemma RelayDone(sent: seq<Sent>, parts: seq<string>, footer: string, threadId: Option<nat>, sentFooter: bool)
    requires CopiesUpTo(sent, parts, footer, threadId) && |sent| == |parts|
    requires sentFooter <==> Taken(parts, footer)
    ensures var out := if sentFooter then sent else sent + [Sent(footer, None)];
      |out| == |parts| + (if Taken(parts, footer) then 0 else 1)
      && (forall j :: 0 <= j < |parts| ==> out[j] == Copy(parts, footer, threadId, j))
      && (!Taken(parts, footer) ==> out[|parts|] == Sent(footer, None))
  {
    var out := if sentFooter then sent else sent + [Sent(footer, None)];
    assert forall j :: 0 <= j < |parts| ==> out[j] == sent[j];
  }

  /**
   * The loop over the slices and the extra footer message: the j-th copy
   * carries the j-th slice, the footer follows unless some slice took it,
   * and a thread is recorded when there was none and a slice was sent.
   */
  method Relay(header: string, text: string, footer: string, threadId: Option<nat>)
    returns (sent: seq<Sent>, createThread: bool)
    ensures var parts := Chunks(header + text);
      |sent| == |parts| + (if Taken(parts, footer) then 0 else 1)
      && (forall j :: 0 <= j < |parts| ==> sent[j] == Copy(parts, footer, threadId, j))
      && (!Taken(parts, footer) ==> sent[|parts|] == Sent(footer, None))
      && (createThread <==> threadId.None? && parts != [])
  {
    var msg := header + text;
    ghost var parts := Chunks(msg);
    sent := [];
    var copyFirst := false;
    var sentFooter := false;
    var i := 0;
    ghost var k := 0;
    ChunkCount(msg, 0);
    while i < |msg|
      invariant RelayInv(msg, footer, threadId, i, k, sent, copyFirst, sentFooter)
      decreases |msg| - i
    {
      RelayIter(msg, footer, threadId, i, k, sent, copyFirst, sentFooter);
      var part := if i + Limit <= |msg| then msg[i..i + Limit] else msg[i..];
      if |part| + |footer| <= Limit {
        part := part + footer;
        sentFooter := true;
      }
      sent := sent + [Sent(part, if !copyFirst then threadId else None)];
      copyFirst := true;
      i := i + Limit;
      k := k + 1;
    }
    assert parts[..k] == parts;
    RelayDone(sent, parts, footer, threadId, sentFooter);
    if !sentFooter {
      sent := sent + [Sent(footer, None)];
    }
    createThread := threadId.None? && copyFirst;
  }

  /**
   * on_message, from the active-thread lookup on: the j-th copy is Copy(j),
   * so the copies hold the slices of the header and text in order, each
   * within the limit, with the footer on the slice it fits on; only the
   * first replies to the thread; the footer follows unless a slice took it;
   * and a thread is recorded exactly when none was active.
   */
  method OnMessage(author: Author, created: string, content: string, attachments: seq<Attachment>,
                   threadId: Option<nat>, roleId: nat)
    returns (sent: seq<Sent>, createThread: bool)
    ensures var parts := Chunks(Header(author, created) + content);
      var footer := Footer(attachments, threadId.Some?, roleId);
      parts != [] && Join("", parts) == Header(author, created) + content
      && |sent| == |parts| + (if Taken(parts, footer) then 0 else 1)
      && (forall j :: 0 <= j < |parts| ==> sent[j] == Copy(parts, footer, threadId, j))
      && (forall j :: 0 <= j < |parts| ==> parts[j] <= sent[j].text && |sent[j].text| <= Limit)
      && (forall j :: 0 <= j < |sent| ==> sent[j].reference == if j == 0 then threadId else None)
      && (!Taken(parts, footer) ==> sent[|parts|].text == footer)
      && (createThread <==> threadId.None?)
  {
    var header := Header(author, created);
    var footer := Footer(attachments, threadId.Some?, roleId);
    sent, createThread := Relay(header, content, footer, threadId);
    ChunksConcat(header + content);
    CopiesHoldSlices(Chunks(header + content), footer, threadId, sent);
  }

  /** Exact copies hold their slices within the limit. */
  lemma CopiesHoldSlices(parts: seq<string>, footer: string, threadId: Option<nat>, sent: seq<Sent>)
    requires forall k :: 0 <= k < |parts| ==> |parts[k]| <= Limit
    requires |parts| <= |sent| && forall j :: 0 <= j < |parts| ==> sent[j] == Copy(parts, footer, threadId, j)
    ensures forall j :: 0 <= j < |parts| ==> parts[j] <= sent[j].text && |sent[j].text| <= Limit
  {
    forall j | 0 <= j < |parts|
      ensures parts[j] <= sent[j].text && |sent[j].text| <= Limit
    {
      assert sent[j] == Copy(parts, footer, threadId, j);
    }
  }
}
