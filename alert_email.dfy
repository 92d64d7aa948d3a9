/**
 * The text of the alert e-mail (send_email in automatic_price_taker.py): a
 * literal "Subject:" header line, a blank line, and a body that gives the
 * new price and the product URL.
 */
module AlertEmail {
  import opened Wrappers

  const Subject: string := "Price Alert: Item now below threshold!"
  const HeaderName: string := "Subject: "
  const BodyLead: string := "The price has dropped to "
  const LinkLead: string := ".\nCheck the product here: "

  predicate NoNewline(s: string) { forall i :: 0 <= i < |s| ==> s[i] != '\n' }

  /** The body: the price text and the URL, in that order, each at a fixed place. */
  function AlertBody(priceText: string, url: string): (b: string)
    ensures |b| == |BodyLead| + |priceText| + |LinkLead| + |url|
    ensures b[..|BodyLead|] == BodyLead
    ensures b[|BodyLead|..|BodyLead| + |priceText|] == priceText
    ensures b[|BodyLead| + |priceText|..|b| - |url|] == LinkLead
    ensures b[|b| - |url|..] == url
  {
    var b := BodyLead + priceText + LinkLead + url;
    assert b[|BodyLead|..|BodyLead| + |priceText|] == priceText;
    assert b[|BodyLead| + |priceText|..|b| - |url|] == LinkLead;
    b
  }

  /** A message with a single header line naming the subject. */
  function MessageText(subject: string, body: string): string
  {
    HeaderName + subject + "\n\n" + body
  }

  /** The alert message for a price text and a URL. */
  function AlertMessage(priceText: string, url: string): string
  {
    MessageText(Subject, AlertBody(priceText, url))
  }

  /** The first position at or after from where a blank line ("\n\n") starts, or |m|. */
  function FindBlankLine(m: string, from: nat): (k: nat)
    requires from <= |m|
    ensures from <= k <= |m|
    ensures k < |m| ==> k + 1 < |m| && m[k] == '\n' && m[k + 1] == '\n'
    decreases |m| - from
  {
    if from + 1 >= |m| then |m|
    else if m[from] == '\n' && m[from + 1] == '\n' then from
    else FindBlankLine(m, from + 1)
  }

  /** Reads a message back into its subject and its body; None if it has no subject header. */
  function SplitMessage(m: string): Option<(string, string)>
  {
    if |m| < |HeaderName| || m[..|HeaderName|] != HeaderName then None
    else
      var k := FindBlankLine(m, |HeaderName|);
      if k == |m| then None else Some((m[|HeaderName|..k], m[k + 2..]))
  }

  /** A blank line at k, with no newline between from and k, is the first one found. */
  lemma {:induction false} FindBlankLineAt(m: string, from: nat, k: nat)
    requires from <= k && k + 1 < |m|
    requires m[k] == '\n' && m[k + 1] == '\n'
    requires forall i :: from <= i < k ==> m[i] != '\n'
    ensures FindBlankLine(m, from) == k
    decreases k - from
  {
    if from < k {
      FindBlankLineAt(m, from + 1, k);
    }
  }

  /** A subject without a newline and any body are read back unchanged. */
  lemma {:induction false} MessageRoundTrip(subject: string, body: string)
    requires NoNewline(subject)
    ensures SplitMessage(MessageText(subject, body)) == Some((subject, body))
  {
    var m := MessageText(subject, body);
    var h := |HeaderName|;
    var k := h + |subject|;
    assert m[..h] == HeaderName;
    assert m[k] == '\n' && m[k + 1] == '\n';
    forall i | h <= i < k ensures m[i] != '\n' {
      assert m[i] == subject[i - h];
    }
    FindBlankLineAt(m, h, k);
    assert m[h..k] == subject;
    assert m[k + 2..] == body;
  }

  /** The alert message reads back as the fixed subject and the body with the price and URL. */
  lemma {:induction false} AlertMessageRoundTrip(priceText: string, url: string)
    ensures SplitMessage(AlertMessage(priceText, url)) == Some((Subject, AlertBody(priceText, url)))
  {
    assert NoNewline(Subject);
    MessageRoundTrip(Subject, AlertBody(priceText, url));
  }
}
