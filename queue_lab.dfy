/**
 * The IT support desk of labs/lab-6-queues/QueueStarter.cs: a FIFO queue of
 * tickets, a ticket counter shared by normal and urgent submissions, and an
 * operation counter. The queue is a sequence whose first element is the
 * front. Text the handlers read from the console is a parameter (`None`
 * for a null read).
 */
module QueueLab {
  import opened Wrappers
  import opened Text

  /** The fields of a ticket the handlers set and read. */
  datatype SupportTicket = SupportTicket(ticketId: string, description: string, priority: string, submittedBy: string)

  /** The quick-selection issues; options 1..5 pick the first five. */
  const CommonIssues: seq<string> := [
    "Login issues - cannot access email",
    "Password reset request",
    "Software installation help",
    "Printer not working",
    "Internet connection problems",
    "Computer running slowly",
    "Email not sending/receiving",
    "VPN connection issues",
    "Application crashes on startup",
    "File recovery assistance",
    "Monitor display problems",
    "Keyboard/mouse not responding",
    "Video conference setup help",
    "File sharing permission issues",
    "Security software alert"
  ]

  // ---------------------------------------------------------------------
  // Decimal digits: the `D3` format and its inverse
  // ---------------------------------------------------------------------

  function DigitChar(d: nat): (c: char)
    requires d < 10
    ensures IsDigit(c)
  {
    ('0' as int + d) as char
  }

  function DigitValue(c: char): (d: nat)
    requires IsDigit(c)
    ensures d < 10
  {
    c as int - '0' as int
  }

  /** The value of a string of decimal digits, most significant first. */
  function DigitsValue(s: string): nat
    requires forall i :: 0 <= i < |s| ==> IsDigit(s[i])
  {
    if s == [] then 0
    else 10 * DigitsValue(s[..|s| - 1]) + DigitValue(s[|s| - 1])
  }

  /** The shortest decimal spelling of `n`. */
  function Decimal(n: nat): (r: string)
    ensures 1 <= |r|
    ensures forall i :: 0 <= i < |r| ==> IsDigit(r[i])
  {
    if n < 10 then [DigitChar(n)] else Decimal(n / 10) + [DigitChar(n % 10)]
  }

  function Zeros(k: nat): (r: string)
    ensures |r| == k && forall i :: 0 <= i < k ==> r[i] == '0'
  {
    if k == 0 then [] else Zeros(k - 1) + ['0']
  }

  /** `n.ToString("D3")`: at least three digits, padded with leading zeros. */
  function FormatD3(n: nat): (r: string)
    ensures |r| >= 3
    ensures forall i :: 0 <= i < |r| ==> IsDigit(r[i])
  {
    var d := Decimal(n);
    if |d| < 3 then Zeros(3 - |d|) + d else d
  }

  lemma {:induction false} DecimalValue(n: nat)
    ensures DigitsValue(Decimal(n)) == n
  {
    if n >= 10 {
      var d := Decimal(n);
      assert d[..|d| - 1] == Decimal(n / 10);
      DecimalValue(n / 10);
    }
  }

  lemma {:induction false} ZerosValue(k: nat, d: string)
    requires forall i :: 0 <= i < |d| ==> IsDigit(d[i])
    ensures DigitsValue(Zeros(k) + d) == DigitsValue(d)
    decreases |d|, k
  {
    var s := Zeros(k) + d;
    if d == [] {
      assert s == Zeros(k);
      if k > 0 {
        assert s[..|s| - 1] == Zeros(k - 1) + [];
        ZerosValue(k - 1, []);
      }
    } else {
      assert s[..|s| - 1] == Zeros(k) + d[..|d| - 1];
      ZerosValue(k, d[..|d| - 1]);
    }
  }

  /** Reading the padded digits back gives the number: distinct counters give distinct ids. */
  lemma FormatD3Value(n: nat)
    ensures DigitsValue(FormatD3(n)) == n
  {
    DecimalValue(n);
    var d := Decimal(n);
    if |d| < 3 {
      ZerosValue(3 - |d|, d);
    }
  }

  /** A ticket id: the prefix letter followed by the counter in `D3` format. */
  function TicketId(prefix: char, counter: nat): (r: string)
    ensures |r| >= 4 && r[0] == prefix && r[1..] == FormatD3(counter)
  {
    [prefix] + FormatD3(counter)
  }

  /** The number an id built by TicketId carries. */
  function IdNumber(id: string): nat
    requires |id| >= 1 && forall i :: 1 <= i < |id| ==> IsDigit(id[i])
  {
    DigitsValue(id[1..])
  }

  lemma TicketIdNumber(prefix: char, counter: nat)
    ensures IdNumber(TicketId(prefix, counter)) == counter
  {
    FormatD3Value(counter);
  }

  // ---------------------------------------------------------------------
  // Parsing the menu choice
  // ---------------------------------------------------------------------

  /**
   * The white space `int.TryParse` skips around a number: U+0009 to U+000D
   * and the space (narrower than the white space of `string.Trim`).
   */
  predicate IsNumberSpace(c: char) { c == ' ' || '\t' <= c <= '\r' }

  function SkipLeadingSpace(s: string): (r: string)
    ensures |r| <= |s| && r == s[|s| - |r|..]
    ensures r == [] || !IsNumberSpace(r[0])
    ensures forall i :: 0 <= i < |s| - |r| ==> IsNumberSpace(s[i])
  {
    if |s| > 0 && IsNumberSpace(s[0]) then SkipLeadingSpace(s[1..]) else s
  }

  function SkipTrailingSpace(s: string): (r: string)
    ensures |r| <= |s| && r == s[..|r|]
    ensures r == [] || !IsNumberSpace(r[|r| - 1])
    ensures forall i :: |r| <= i < |s| ==> IsNumberSpace(s[i])
  {
    if |s| > 0 && IsNumberSpace(s[|s| - 1]) then SkipTrailingSpace(s[..|s| - 1]) else s
  }

  predicate AllDigits(d: string) { forall i :: 0 <= i < |d| ==> IsDigit(d[i]) }

  /** The text after an optional leading sign. */
  function Magnitude(t: string): (r: string)
    requires t != []
    ensures |r| >= |t| - 1
  {
    if t[0] == '+' || t[0] == '-' then t[1..] else t
  }

  /** An optional sign followed by one or more decimal digits, and nothing else. */
  function ParseSigned(t: string): Option<int> {
    if t == [] || Magnitude(t) == [] || !AllDigits(Magnitude(t)) then None
    else
      var v: int := DigitsValue(Magnitude(t));
      Some(if t[0] == '-' then -v else v)
  }

  /**
   * `int.TryParse` with the default integer style: surrounding white space,
   * an optional sign, then one or more decimal digits. Values outside the
   * 32-bit range are not rejected here; the only use compares with 1..5.
   */
  function ParseInt(s: string): (r: Option<int>)
    ensures r.Some? ==> Trim(s) != []
    ensures (forall i :: 0 <= i < |s| ==> IsNumberSpace(s[i])) ==> r.None?
  {
    ParseNeedsText(s);
    ParseSigned(SkipTrailingSpace(SkipLeadingSpace(s)))
  }

  lemma ParseNeedsText(s: string)
    ensures ParseSigned(SkipTrailingSpace(SkipLeadingSpace(s))).Some? ==> Trim(s) != []
  {
    var u := SkipLeadingSpace(s);
    var t := SkipTrailingSpace(u);
    if ParseSigned(t).Some? {
      assert t[0] == '+' || t[0] == '-' || IsDigit(Magnitude(t)[0]);
      assert t[0] == u[0] == s[|s| - |u|];
      TrimBlank(s);
    }
  }

  /** Text whose ends are not white space is left alone by the skipping. */
  lemma SkipKeeps(t: string)
    requires t != [] && !IsNumberSpace(t[0]) && !IsNumberSpace(t[|t| - 1])
    ensures SkipTrailingSpace(SkipLeadingSpace(t)) == t
  {
  }

  lemma {:induction false} SkipLeadingPrefix(pre: string, u: string)
    requires forall i :: 0 <= i < |pre| ==> IsNumberSpace(pre[i])
    requires u != [] && !IsNumberSpace(u[0])
    ensures SkipLeadingSpace(pre + u) == u
  {
    if pre != [] {
      assert (pre + u)[1..] == pre[1..] + u;
      SkipLeadingPrefix(pre[1..], u);
    } else {
      assert pre + u == u;
    }
  }

  lemma {:induction false} SkipTrailingSuffix(u: string, post: string)
    requires forall i :: 0 <= i < |post| ==> IsNumberSpace(post[i])
    requires u != [] && !IsNumberSpace(u[|u| - 1])
    ensures SkipTrailingSpace(u + post) == u
  {
    if post != [] {
      assert (u + post)[..|u + post| - 1] == u + post[..|post| - 1];
      SkipTrailingSuffix(u, post[..|post| - 1]);
    } else {
      assert u + post == u;
    }
  }

  /** White space around a number does not change what it parses to. */
  lemma ParseAround(pre: string, t: string, post: string)
    requires forall i :: 0 <= i < |pre| ==> IsNumberSpace(pre[i])
    requires forall i :: 0 <= i < |post| ==> IsNumberSpace(post[i])
    requires t != [] && !IsNumberSpace(t[0]) && !IsNumberSpace(t[|t| - 1])
    ensures ParseInt(pre + t + post) == ParseInt(t)
  {
    SkipKeeps(t);
    assert pre + t + post == pre + (t + post);
    SkipLeadingPrefix(pre, t + post);
    SkipTrailingSuffix(t, post);
  }

  /** The decimal text of an integer: a minus sign for a negative one, then its digits. */
  function DecimalText(n: int): (r: string)
    ensures r != [] && !IsNumberSpace(r[0]) && IsDigit(r[|r| - 1])
  {
    if n < 0 then "-" + Decimal(-n) else Decimal(n)
  }

  /** Every integer's decimal text parses back to it. */
  lemma ParseDecimal(n: int)
    ensures ParseInt(DecimalText(n)) == Some(n)
  {
    var t := DecimalText(n);
    SkipKeeps(t);
    var m: nat := if n < 0 then -n else n;
    DecimalValue(m);
    if n < 0 {
      assert t[1..] == Decimal(m);
    }
  }

  /** A character that is not a digit, other than a leading sign, makes the parse fail. */
  lemma ParseRejects(t: string, k: int)
    requires t != [] && !IsNumberSpace(t[0]) && !IsNumberSpace(t[|t| - 1])
    requires 0 <= k < |t| && !IsDigit(t[k])
    requires k > 0 || (t[0] != '+' && t[0] != '-')
    ensures ParseInt(t) == None
  {
    SkipKeeps(t);
    var j := if t[0] == '+' || t[0] == '-' then k - 1 else k;
    assert 0 <= j < |Magnitude(t)| && Magnitude(t)[j] == t[k];
  }

  /** A one-digit string parses to its digit. */
  lemma ParseDigit(k: nat)
    requires k < 10
    ensures ParseInt([DigitChar(k)]) == Some(k)
  {
    ParseDecimal(k);
  }

  /**
   * The description HandleSubmitTicket settles on: None when "0" cancels,
   * a common issue for an option that parses to 1..5, the trimmed custom
   * text for "6", and the empty string for anything else.
   */
  function SelectDescription(choice: Option<string>, custom: Option<string>): (r: Option<string>)
    ensures choice == Some("0") <==> r.None?
    ensures r.Some? && choice.Some? && ParseInt(choice.value).Some? && 1 <= ParseInt(choice.value).value <= 5 ==>
      r.value == CommonIssues[ParseInt(choice.value).value - 1]
    ensures choice == Some("6") ==> r == Some(if custom.Some? then Trim(custom.value) else [])
  {
    ParseDigit(6);
    if choice == Some("0") then None
    else if choice.Some? && ParseInt(choice.value).Some? && 1 <= ParseInt(choice.value).value <= 5 then
      Some(CommonIssues[ParseInt(choice.value).value - 1])
    else if choice == Some("6") then Some(if custom.Some? then Trim(custom.value) else [])
    else Some([])
  }

  /** Whether a submission goes through: a description that is not blank. */
  predicate Accepted(description: Option<string>) {
    description.Some? && !IsBlank(description.value)
  }

  /** None of the first five common issues is blank. */
  lemma CommonIssuesNotBlank(k: nat)
    requires k < 5
    ensures !IsBlank(CommonIssues[k])
  {
    if k == 0 {
      assert CommonIssues[0][0] == 'L';
    } else if k == 1 {
      assert CommonIssues[1][0] == 'P';
    } else if k == 2 {
      assert CommonIssues[2][0] == 'S';
    } else if k == 3 {
      assert CommonIssues[3][0] == 'P';
    } else {
      assert CommonIssues[4][0] == 'I';
    }
  }

  /** The common issues are never blank, so a quick selection is always accepted. */
  lemma QuickSelectionAccepted(k: nat)
    requires 1 <= k <= 5
    ensures Accepted(SelectDescription(Some([DigitChar(k)]), None))
  {
    ParseDigit(k);
    CommonIssuesNotBlank(k - 1);
  }

  /** The clear confirmation: trimmed and lower-cased, it reads "y" or "yes". */
  predicate Confirms(confirm: Option<string>) {
    confirm.Some? && (Lower(Trim(confirm.value)) == "y" || Lower(Trim(confirm.value)) == "yes")
  }

  // ---------------------------------------------------------------------
  // Search
  // ---------------------------------------------------------------------

  /** A ticket matches a lower-cased term when its lower-cased id or description contains it. */
  predicate Matches(t: SupportTicket, term: string) {
    Contains(Lower(t.ticketId), term) || Contains(Lower(t.description), term)
  }

  /** The 1-based positions of the matching tickets, front to back. */
  function MatchPositions(q: seq<SupportTicket>, term: string): (r: seq<nat>)
    ensures forall k :: 0 <= k < |r| ==> 1 <= r[k] <= |q| && Matches(q[r[k] - 1], term)
    ensures forall k, l :: 0 <= k < l < |r| ==> r[k] < r[l]
  {
    if q == [] then []
    else
      var r := MatchPositions(q[..|q| - 1], term);
      if Matches(q[|q| - 1], term) then r + [|q|] else r
  }

  /** Every matching ticket is reported. */
  lemma {:induction false} MatchPositionsComplete(q: seq<SupportTicket>, term: string, p: nat)
    requires 1 <= p <= |q| && Matches(q[p - 1], term)
    ensures p in MatchPositions(q, term)
  {
    if p < |q| {
      assert q[..|q| - 1][p - 1] == q[p - 1];
      MatchPositionsComplete(q[..|q| - 1], term, p);
    }
  }

  // ---------------------------------------------------------------------
  // The desk
  // ---------------------------------------------------------------------

  /** Ids made by TicketId: a letter followed by digits. */
  predicate WellFormedId(id: string) {
    |id| >= 1 && forall i :: 1 <= i < |id| ==> IsDigit(id[i])
  }

  /**
   * The queue is in submission order: ticket numbers strictly increase from
   * front to back and all lie below the next counter value.
   */
  predicate InSubmissionOrder(q: seq<SupportTicket>, counter: int) {
    (forall k :: 0 <= k < |q| ==> WellFormedId(q[k].ticketId) && IdNumber(q[k].ticketId) < counter)
    && (forall k, l :: 0 <= k < l < |q| ==> IdNumber(q[k].ticketId) < IdNumber(q[l].ticketId))
  }

  /** Tickets in submission order have pairwise different ids. */
  lemma IdsDistinct(q: seq<SupportTicket>, counter: int, k: nat, l: nat)
    requires InSubmissionOrder(q, counter)
    requires k < l < |q|
    ensures q[k].ticketId != q[l].ticketId
  {
  }

  class SupportDesk {
    var ticketQueue: seq<SupportTicket>
    var ticketCounter: int
    var totalOperations: int

    ghost predicate Valid()
      reads this
    {
      ticketCounter >= 1 && InSubmissionOrder(ticketQueue, ticketCounter)
    }

    constructor ()
      ensures Valid()
      ensures ticketQueue == [] && ticketCounter == 1 && totalOperations == 0
    {
      ticketQueue := [];
      ticketCounter := 1;
      totalOperations := 0;
    }

    /** Appends a ticket with the next id; shared by the two submit handlers. */
    method Enqueue(prefix: char, description: string, priority: string) returns (ticket: SupportTicket)
      requires Valid()
      modifies this
      ensures Valid()
      ensures ticket == SupportTicket(TicketId(prefix, old(ticketCounter)), description, priority, "User")
      ensures ticketQueue == old(ticketQueue) + [ticket]
      ensures ticketCounter == old(ticketCounter) + 1 && totalOperations == old(totalOperations) + 1
    {
      TicketIdNumber(prefix, ticketCounter);
      ticket := SupportTicket(TicketId(prefix, ticketCounter), description, priority, "User");
      ticketQueue := ticketQueue + [ticket];
      ticketCounter := ticketCounter + 1;
      totalOperations := totalOperations + 1;
    }

    /**
     * HandleSubmitTicket: a cancelled or blank submission changes nothing;
     * otherwise a Normal ticket "T<counter>" joins the back of the queue.
     */
    method HandleSubmitTicket(choice: Option<string>, custom: Option<string>) returns (ticket: Option<SupportTicket>)
      requires Valid()
      modifies this
      ensures Valid()
      ensures var d := SelectDescription(choice, custom);
        if Accepted(d) then
          && ticket == Some(SupportTicket(TicketId('T', old(ticketCounter)), d.value, "Normal", "User"))
          && ticketQueue == old(ticketQueue) + [ticket.value]
          && ticketCounter == old(ticketCounter) + 1 && totalOperations == old(totalOperations) + 1
        else
          && ticket == None
          && ticketQueue == old(ticketQueue)
          && ticketCounter == old(ticketCounter) && totalOperations == old(totalOperations)
    {
      var d := SelectDescription(choice, custom);
      if d.None? || IsBlank(d.value) {
        return None;
      }
      var t := Enqueue('T', d.value, "Normal");
      ticket := Some(t);
    }

    /**
     * HandleUrgentTicket: the trimmed description, if not blank, becomes an
     * Urgent ticket "U<counter>" at the back of the queue, like any other.
     */
    method HandleUrgentTicket(input: Option<string>) returns (ticket: Option<SupportTicket>)
      requires Valid()
      modifies this
      ensures Valid()
      ensures var d := if input.Some? then Trim(input.value) else [];
        if !IsBlank(d) then
          && ticket == Some(SupportTicket(TicketId('U', old(ticketCounter)), d, "Urgent", "User"))
          && ticketQueue == old(ticketQueue) + [ticket.value]
          && ticketCounter == old(ticketCounter) + 1 && totalOperations == old(totalOperations) + 1
        else
          && ticket == None
          && ticketQueue == old(ticketQueue)
          && ticketCounter == old(ticketCounter) && totalOperations == old(totalOperations)
    {
      var d := if input.Some? then Trim(input.value) else [];
      if IsBlank(d) {
        return None;
      }
      var t := Enqueue('U', d, "Urgent");
      ticket := Some(t);
    }

    /** HandleProcessTicket: the front ticket leaves the queue (FIFO). */
    method HandleProcessTicket() returns (ticket: Option<SupportTicket>)
      requires Valid()
      modifies this
      ensures Valid()
      ensures old(ticketQueue) == [] ==> ticket == None && ticketQueue == [] && totalOperations == old(totalOperations)
      ensures old(ticketQueue) != [] ==>
        && ticket == Some(old(ticketQueue)[0])
        && ticketQueue == old(ticketQueue)[1..]
        && totalOperations == old(totalOperations) + 1
      ensures ticketCounter == old(ticketCounter)
    {
      if |ticketQueue| == 0 {
        return None;
      }
      ticket := Some(ticketQueue[0]);
      ticketQueue := ticketQueue[1..];
      totalOperations := totalOperations + 1;
    }

    /** HandlePeekNext: the front ticket, if any; nothing changes. */
    method HandlePeekNext() returns (ticket: Option<SupportTicket>)
      ensures ticketQueue == [] ==> ticket == None
      ensures ticketQueue != [] ==> ticket == Some(ticketQueue[0])
    {
      if |ticketQueue| == 0 {
        return None;
      }
      ticket := Some(ticketQueue[0]);
    }

    /**
     * HandleClearQueue: on a non-empty queue, a confirming answer empties it
     * and counts one operation; any other answer changes nothing.
     */
    method HandleClearQueue(confirm: Option<string>) returns (cleared: nat)
      requires Valid()
      modifies this
      ensures Valid()
      ensures old(ticketQueue) != [] && Confirms(confirm) ==>
        ticketQueue == [] && cleared == |old(ticketQueue)| && totalOperations == old(totalOperations) + 1
      ensures !(old(ticketQueue) != [] && Confirms(confirm)) ==>
        ticketQueue == old(ticketQueue) && cleared == 0 && totalOperations == old(totalOperations)
      ensures ticketCounter == old(ticketCounter)
    {
      if |ticketQueue| == 0 {
        return 0;
      }
      var countBefore := |ticketQueue|;
      if confirm.Some? {
        var answer := Lower(Trim(confirm.value));
        if answer == "y" || answer == "yes" {
          ticketQueue := [];
          totalOperations := totalOperations + 1;
          return countBefore;
        }
      }
      return 0;
    }

    /**
     * HandleSearchTicket: with a non-blank term, the positions of the
     * tickets that match its trimmed, lower-cased form; the queue is only read.
     */
    method HandleSearchTicket(term: Option<string>) returns (positions: seq<nat>)
      ensures ticketQueue == [] || term.None? || IsBlank(Trim(term.value)) ==> positions == []
      ensures ticketQueue != [] && term.Some? && !IsBlank(Trim(term.value)) ==>
        positions == MatchPositions(ticketQueue, Lower(Trim(term.value)))
    {
      if |ticketQueue| == 0 {
        return [];
      }
      if term.None? {
        return [];
      }
      var trimmed := Trim(term.value);
      if IsBlank(trimmed) {
        return [];
      }
      var searchTerm := Lower(trimmed);
      positions := [];
      var position := 1;
      for k := 0 to |ticketQueue|
        invariant position == k + 1
        invariant positions == MatchPositions(ticketQueue[..k], searchTerm)
      {
        assert ticketQueue[..k + 1][..k] == ticketQueue[..k];
        var ticket := ticketQueue[k];
        if Contains(Lower(ticket.ticketId), searchTerm) || Contains(Lower(ticket.description), searchTerm) {
          positions := positions + [position];
        }
        position := position + 1;
      }
      assert ticketQueue[..|ticketQueue|] == ticketQueue;
    }
  }
}
