/**
 * The nmcli adapter of src/nmcli.rs with the process calls taken out: each
 * operation receives what running nmcli (or iw) produced, as an `Outcome`,
 * and turns it into records or a friendly error. What is modelled here is the
 * processing: the error classifier, the row filters, the de-duplication and
 * ranking of scan results, the status extraction, device detection and the
 * choice of arguments and success messages for connect, disconnect and forget.
 */
module Nmcli {
  import opened Wrappers
  import opened Text
  import Terse
  import opened Messages

  // ---------------------------------------------------------------------------
  // Records (src/nmcli.rs:4-24)

  /** One visible network: an SSID, a signal strength (a `u8`), the raw security text and the in-use flag. */
  datatype Network = Network(ssid: string, signal: U8, security: string, inUse: bool)

  /** One saved connection profile. */
  datatype SavedNetwork = SavedNetwork(name: string, active: bool)

  /** The current connection; every field absent means "not connected". */
  datatype ConnectionStatus = ConnectionStatus(ssid: Option<string>, signal: Option<U8>, ip: Option<string>, speed: Option<string>)

  const NotConnected := ConnectionStatus(None, None, None, None)

  /**
   * What running one external command produced: it started and exited
   * (`success` is the exit status, `stdout` already split into lines), or it
   * could not be started at all (`reason` is the text of the I/O error).
   */
  datatype Outcome = Spawned(success: bool, stdout: seq<string>, stderr: string) | SpawnFailed(reason: string)

  /** The lines a command printed; nothing when it could not be started. */
  function StdoutOf(o: Outcome): seq<string>
  {
    if o.Spawned? then o.stdout else []
  }

  // ---------------------------------------------------------------------------
  // Error classification (src/nmcli.rs:280-334)
  // The longer texts are written in pieces so that the verifier can look inside them.


  const SecretsMissing := "Secrets were required, " + "but not provided"
  const KeysRequired := "Passwords or encryption " + "keys are required"

  /** `friendly_error`: the first matching substring rule decides; unmatched non-empty text passes through. */
  function FriendlyError(msg: string): (r: string)
    ensures msg == [] ==> r == UnknownText
  {
    if Contains(msg, "No network with SSID") then NotFoundText
    else if Contains(msg, SecretsMissing) then PasswordRequiredText
    else if Contains(msg, "No suitable device found") then NoAdapterText
    else if Contains(msg, "is not running") then NotRunningText
    else if Contains(msg, "Error: Connection") && Contains(msg, "not found") then ConnectionGoneText
    else if Contains(msg, KeysRequired) then IncorrectPasswordText
    else if Contains(msg, "permission") || Contains(msg, "not authorized") then PermissionText
    else if msg == [] then UnknownText
    else msg
  }

  /** `error_needs_password`: the two friendly texts that call for a password prompt. */
  predicate ErrorNeedsPassword(msg: string)
  {
    Contains(msg, "Password required") || Contains(msg, "Incorrect password")
  }

  /** The classifier restated as a table of rules tried in order. */
  datatype Matcher = Has(p: string) | HasBoth(p: string, q: string) | HasEither(p: string, q: string) | IsEmpty

  predicate Matches(m: Matcher, msg: string)
  {
    match m
    case Has(p) => Contains(msg, p)
    case HasBoth(p, q) => Contains(msg, p) && Contains(msg, q)
    case HasEither(p, q) => Contains(msg, p) || Contains(msg, q)
    case IsEmpty => msg == []
  }

  datatype Rule = Rule(when: Matcher, says: string)

  const Rules: seq<Rule> := [
    Rule(Has("No network with SSID"), NotFoundText),
    Rule(Has(SecretsMissing), PasswordRequiredText),
    Rule(Has("No suitable device found"), NoAdapterText),
    Rule(Has("is not running"), NotRunningText),
    Rule(HasBoth("Error: Connection", "not found"), ConnectionGoneText),
    Rule(Has(KeysRequired), IncorrectPasswordText),
    Rule(HasEither("permission", "not authorized"), PermissionText),
    Rule(IsEmpty, UnknownText)
  ]

  /** Index of the first rule at or after `from` that matches `msg`. */
  function FirstMatch(rules: seq<Rule>, msg: string, from: nat): (r: Option<nat>)
    ensures r.Some? ==> from <= r.value < |rules| && Matches(rules[r.value].when, msg)
    ensures r.Some? ==> forall j :: from <= j < r.value ==> !Matches(rules[j].when, msg)
    ensures r.None? ==> forall j :: from <= j < |rules| ==> !Matches(rules[j].when, msg)
    decreases |rules| - from
  {
    if from >= |rules| then None
    else if Matches(rules[from].when, msg) then Some(from)
    else FirstMatch(rules, msg, from + 1)
  }

  /** The table-driven classifier: the text of the first matching rule, or the message itself. */
  function ClassifyByRules(msg: string): string
  {
    match FirstMatch(Rules, msg, 0)
    case Some(i) => Rules[i].says
    case None => msg
  }

  /** `friendly_error` is exactly first-match over the rule table. */
  lemma FriendlyErrorIsFirstMatch(msg: string)
    ensures FriendlyError(msg) == ClassifyByRules(msg)
  {
    var k := FirstMatch(Rules, msg, 0);
    var f0 := FirstMatch(Rules, msg, 7);
    var f1 := FirstMatch(Rules, msg, 6);
    var f2 := FirstMatch(Rules, msg, 5);
    var f3 := FirstMatch(Rules, msg, 4);
    var f4 := FirstMatch(Rules, msg, 3);
    var f5 := FirstMatch(Rules, msg, 2);
    var f6 := FirstMatch(Rules, msg, 1);
    assert f0 == if msg == [] then Some(7) else None;
    assert f1 == if Contains(msg, "permission") || Contains(msg, "not authorized") then Some(6) else f0;
    assert f2 == if Contains(msg, KeysRequired) then Some(5) else f1;
    assert f3 == if Contains(msg, "Error: Connection") && Contains(msg, "not found") then Some(4) else f2;
    assert f4 == if Contains(msg, "is not running") then Some(3) else f3;
    assert f5 == if Contains(msg, "No suitable device found") then Some(2) else f4;
    assert f6 == if Contains(msg, SecretsMissing) then Some(1) else f5;
    assert k == if Contains(msg, "No network with SSID") then Some(0) else f6;
  }


  /** The two password texts name themselves as such. */
  lemma PasswordTextsNeedPassword()
    ensures ErrorNeedsPassword(PasswordRequiredText)
    ensures ErrorNeedsPassword(IncorrectPasswordText)
  {
    ContainsAt(PasswordRequiredText, "Password required", 0);
    ContainsAt(IncorrectPasswordText, "Incorrect password", 0);
  }

  /** A text lacking one letter of each password phrase does not ask for a password. */
  lemma {:induction false} NoPasswordPhrase(t: string, a: char, b: char)
    requires a in "Password required" && a !in t
    requires b in "Incorrect password" && b !in t
    ensures !ErrorNeedsPassword(t)
  {
    MissingCharNotContained(t, "Password required", a);
    MissingCharNotContained(t, "Incorrect password", b);
  }

  lemma PhraseLetters()
    ensures 'q' in "Password required"
    ensures 'c' in "Incorrect password" && 'p' in "Incorrect password"
  {
  }

  lemma NotFoundNeedsNoPassword() ensures !ErrorNeedsPassword(NotFoundText)
  {
    NotFoundLacksQ();
    NotFoundLacksC();
    PhraseLetters();
    NoPasswordPhrase(NotFoundText, 'q', 'c');
  }

  lemma NoAdapterNeedsNoPassword() ensures !ErrorNeedsPassword(NoAdapterText)
  {
    NoAdapterLacksQ();
    NoAdapterLacksC();
    PhraseLetters();
    NoPasswordPhrase(NoAdapterText, 'q', 'c');
  }

  lemma NotRunningNeedsNoPassword() ensures !ErrorNeedsPassword(NotRunningText)
  {
    NotRunningLacksQ();
    NotRunningLacksP();
    PhraseLetters();
    NoPasswordPhrase(NotRunningText, 'q', 'p');
  }

  lemma ConnectionGoneNeedsNoPassword() ensures !ErrorNeedsPassword(ConnectionGoneText)
  {
    ConnectionGoneLacksQ();
    ConnectionGoneLacksP();
    PhraseLetters();
    NoPasswordPhrase(ConnectionGoneText, 'q', 'p');
  }

  lemma PermissionNeedsNoPassword() ensures !ErrorNeedsPassword(PermissionText)
  {
    PermissionLacksQ();
    PermissionLacksC();
    PhraseLetters();
    NoPasswordPhrase(PermissionText, 'q', 'c');
  }

  lemma UnknownNeedsNoPassword() ensures !ErrorNeedsPassword(UnknownText)
  {
    UnknownLacksQ();
    UnknownLacksP();
    PhraseLetters();
    NoPasswordPhrase(UnknownText, 'q', 'p');
  }

  /** Which of the fixed friendly texts ask for a password. */
  lemma FixedTextsNeedingPassword()
    ensures ErrorNeedsPassword(PasswordRequiredText)
    ensures ErrorNeedsPassword(IncorrectPasswordText)
    ensures !ErrorNeedsPassword(NotFoundText)
    ensures !ErrorNeedsPassword(NoAdapterText)
    ensures !ErrorNeedsPassword(NotRunningText)
    ensures !ErrorNeedsPassword(ConnectionGoneText)
    ensures !ErrorNeedsPassword(PermissionText)
    ensures !ErrorNeedsPassword(UnknownText)
  {
    PasswordTextsNeedPassword();
    NotFoundNeedsNoPassword();
    NoAdapterNeedsNoPassword();
    NotRunningNeedsNoPassword();
    ConnectionGoneNeedsNoPassword();
    PermissionNeedsNoPassword();
    UnknownNeedsNoPassword();
  }

  /**
   * After classification a password is asked for exactly when the first
   * matching rule is "secrets were required" or "passwords or encryption keys
   * are required", or when no rule matches and the raw text itself names one
   * of the two phrases.
   */
  lemma NeedsPasswordAfterClassification(msg: string)
    ensures ErrorNeedsPassword(FriendlyError(msg)) <==>
      (var k := FirstMatch(Rules, msg, 0);
       k == Some(1) || k == Some(5) || (k.None? && ErrorNeedsPassword(msg)))
  {
    FriendlyErrorIsFirstMatch(msg);
    var k := FirstMatch(Rules, msg, 0);
    match k
    case None =>
    case Some(i) =>
      assert FriendlyError(msg) == Rules[i].says;
      if i == 0 { NotFoundNeedsNoPassword(); }
      else if i == 1 { PasswordTextsNeedPassword(); }
      else if i == 2 { NoAdapterNeedsNoPassword(); }
      else if i == 3 { NotRunningNeedsNoPassword(); }
      else if i == 4 { ConnectionGoneNeedsNoPassword(); }
      else if i == 5 { PasswordTextsNeedPassword(); }
      else if i == 6 { PermissionNeedsNoPassword(); }
      else { UnknownNeedsNoPassword(); }
  }

  /** An empty diagnostic never leads to a password prompt. */
  lemma EmptyErrorNeedsNoPassword()
    ensures FriendlyError([]) == UnknownText
    ensures !ErrorNeedsPassword(FriendlyError([]))
  {
    FixedTextsNeedingPassword();
  }

  // ---------------------------------------------------------------------------
  // Device detection (src/nmcli.rs:27-41)

  predicate IsWifiDeviceRow(fields: seq<string>)
  {
    |fields| >= 2 && fields[1] == "wifi"
  }

  ghost predicate FirstWifiDevice(lines: seq<string>, i: int)
  {
    0 <= i < |lines| && IsWifiDeviceRow(Terse.Fields(lines[i]))
    && forall j :: 0 <= j < i ==> !IsWifiDeviceRow(Terse.Fields(lines[j]))
  }

  /** `detect_wifi_device` on the output of `nmcli -t -f DEVICE,TYPE device`; the exit status is not consulted. */
  method DetectWifiDevice(out: Outcome) returns (r: Result<string, string>)
    ensures out.SpawnFailed? ==> r == Err(FriendlyError(out.reason))
    ensures out.Spawned? ==> (r.Ok? <==> exists i :: FirstWifiDevice(out.stdout, i))
    ensures out.Spawned? && r.Ok? ==> exists i :: FirstWifiDevice(out.stdout, i) && r.value == Terse.Fields(out.stdout[i])[0]
    ensures out.Spawned? && r.Err? ==> r.error == NoAdapterText
  {
    if out.SpawnFailed? {
      return Err(FriendlyError(out.reason));
    }
    var lines := out.stdout;
    var i := 0;
    while i < |lines|
      invariant 0 <= i <= |lines|
      invariant forall j :: 0 <= j < i ==> !IsWifiDeviceRow(Terse.Fields(lines[j]))
    {
      var fields := Terse.ParseTerseLine(lines[i]);
      if |fields| >= 2 && fields[1] == "wifi" {
        assert FirstWifiDevice(lines, i);
        return Ok(fields[0]);
      }
      i := i + 1;
    }
    r := Err(NoAdapterText);
  }

  // ---------------------------------------------------------------------------
  // Scanning (src/nmcli.rs:44-106)

  /** One line of `nmcli -t -f IN-USE,SSID,SIGNAL,SECURITY device wifi list`, or nothing if the line is skipped. */
  function ScanRow(fields: seq<string>): (r: Option<Network>)
    ensures r.Some? <==> |fields| >= 4 && fields[1] != []
    ensures r.Some? ==> r.value.ssid == fields[1] && r.value.security == fields[3]
    ensures r.Some? ==> r.value.signal == ParseU8(fields[2]).GetOr(0)
    ensures r.Some? ==> (r.value.inUse <==> Trim(fields[0]) == "*")
  {
    if |fields| < 4 || fields[1] == [] then None
    else Some(Network(fields[1], ParseU8(fields[2]).GetOr(0), fields[3], Trim(fields[0]) == "*"))
  }

  /** What one raw line of the listing contributes. */
  function LineRow(line: string): Option<Network>
  {
    ScanRow(Terse.Fields(line))
  }

  /** The rows the scan keeps, in line order. */
  function ScanRows(lines: seq<string>): (rows: seq<Network>)
    ensures |rows| <= |lines|
  {
    if lines == [] then []
    else
      var init := ScanRows(lines[..|lines| - 1]);
      match LineRow(lines[|lines| - 1])
      case Some(n) => init + [n]
      case None => init
  }

  /** Every kept row comes from some line of the listing. */
  lemma {:induction false} ScanRowsSound(lines: seq<string>, n: Network)
    requires n in ScanRows(lines)
    ensures exists i :: 0 <= i < |lines| && LineRow(lines[i]) == Some(n)
  {
    var init, last := lines[..|lines| - 1], lines[|lines| - 1];
    if n in ScanRows(init) {
      ScanRowsSound(init, n);
      var i :| 0 <= i < |init| && LineRow(init[i]) == Some(n);
      assert lines[i] == init[i];
    } else {
      assert LineRow(lines[|lines| - 1]) == Some(n);
    }
  }

  /** Every line that yields a row contributes it to the listing. */
  lemma {:induction false} ScanRowsComplete(lines: seq<string>, i: nat, n: Network)
    requires i < |lines| && LineRow(lines[i]) == Some(n)
    ensures n in ScanRows(lines)
  {
    var init := lines[..|lines| - 1];
    if i < |lines| - 1 {
      assert init[i] == lines[i];
      ScanRowsComplete(init, i, n);
    }
  }

  /** One more line extends the kept rows by what that line contributes. */
  lemma ScanRowsSnoc(lines: seq<string>, i: nat)
    requires i < |lines|
    ensures ScanRows(lines[..i + 1]) == ScanRows(lines[..i]) + (if LineRow(lines[i]).Some? then [LineRow(lines[i]).value] else [])
  {
    assert lines[..i + 1][..i] == lines[..i];
  }

  /** The replacement rule: a later row with a known SSID wins when it is in use, or when neither is and it is strictly stronger. */
  predicate Replaces(later: Network, kept: Network)
  {
    later.inUse || (!kept.inUse && later.signal > kept.signal)
  }

  /** The `best` map after folding the rows in order. */
  function Dedup(rows: seq<Network>): (best: map<string, Network>)
    ensures forall k :: k in best ==> best[k].ssid == k
  {
    if rows == [] then map[]
    else
      var best := Dedup(rows[..|rows| - 1]);
      var n := rows[|rows| - 1];
      if n.ssid in best && !Replaces(n, best[n.ssid]) then best else best[n.ssid := n]
  }

  /** One more row changes only its own SSID's entry, by the replacement rule. */
  lemma DedupSnoc(rows: seq<Network>, n: Network)
    ensures Dedup(rows + [n]) == if n.ssid in Dedup(rows) && !Replaces(n, Dedup(rows)[n.ssid]) then Dedup(rows) else Dedup(rows)[n.ssid := n]
  {
    assert (rows + [n])[..|rows|] == rows;
  }

  /** The de-duplicated SSIDs are exactly the SSIDs of the rows, and each survivor is one of the rows. */
  lemma {:induction false} DedupDomain(rows: seq<Network>, k: string)
    ensures k in Dedup(rows) <==> exists j :: 0 <= j < |rows| && rows[j].ssid == k
    ensures k in Dedup(rows) ==> Dedup(rows)[k] in rows
  {
    if rows != [] {
      var init := rows[..|rows| - 1];
      DedupDomain(init, k);
      if exists j :: 0 <= j < |init| && init[j].ssid == k {
        var j :| 0 <= j < |init| && init[j].ssid == k;
        assert rows[j] == init[j];
      }
      if exists j :: 0 <= j < |rows| && rows[j].ssid == k {
        var j :| 0 <= j < |rows| && rows[j].ssid == k;
        if j < |rows| - 1 { assert init[j] == rows[j]; }
      }
      if k in Dedup(init) { assert Dedup(init)[k] in init ==> Dedup(init)[k] in rows; }
    }
  }

  /** An in-use row is never displaced by a row that is not in use; of several in-use rows the last one wins. */
  lemma {:induction false} DedupLastInUseWins(rows: seq<Network>, j: nat)
    requires j < |rows| && rows[j].inUse
    requires forall m :: j < m < |rows| && rows[m].ssid == rows[j].ssid ==> !rows[m].inUse
    ensures rows[j].ssid in Dedup(rows) && Dedup(rows)[rows[j].ssid] == rows[j]
  {
    var init := rows[..|rows| - 1];
    if j < |rows| - 1 {
      forall m | j < m < |init| && init[m].ssid == init[j].ssid ensures !init[m].inUse {
        assert init[m] == rows[m];
      }
      DedupLastInUseWins(init, j);
      assert init[j] == rows[j];
    }
  }

  /** When no row for an SSID is in use, the survivor is the first of the strongest rows for it. */
  lemma {:induction false} DedupStrongestWins(rows: seq<Network>, k: string)
    requires k in Dedup(rows)
    requires forall j :: 0 <= j < |rows| && rows[j].ssid == k ==> !rows[j].inUse
    ensures forall j :: 0 <= j < |rows| && rows[j].ssid == k ==> rows[j].signal <= Dedup(rows)[k].signal
    ensures exists i :: (0 <= i < |rows| && rows[i] == Dedup(rows)[k]
      && forall j :: 0 <= j < i && rows[j].ssid == k ==> rows[j].signal < rows[i].signal)
  {
    var init := rows[..|rows| - 1];
    var n := rows[|rows| - 1];
    var best := Dedup(rows);
    forall j | 0 <= j < |init| && init[j].ssid == k ensures !init[j].inUse {
      assert init[j] == rows[j];
    }
    if k in Dedup(init) {
      DedupStrongestWins(init, k);
      var old_ := Dedup(init)[k];
      var i :| 0 <= i < |init| && init[i] == old_
        && forall j :: 0 <= j < i && init[j].ssid == k ==> init[j].signal < init[i].signal;
      forall j | 0 <= j < |rows| && rows[j].ssid == k ensures rows[j].signal <= best[k].signal {
        if j < |init| { assert init[j] == rows[j]; }
      }
      if best[k] == old_ {
        assert rows[i] == init[i];
        forall j | 0 <= j < i && rows[j].ssid == k ensures rows[j].signal < rows[i].signal {
          assert init[j] == rows[j];
        }
      } else {
        var last := |rows| - 1;
        forall j | 0 <= j < last && rows[j].ssid == k ensures rows[j].signal < rows[last].signal {
          assert init[j] == rows[j];
        }
      }
    } else {
      DedupDomain(init, k);
      var last := |rows| - 1;
      forall j | 0 <= j < last ensures rows[j].ssid != k {
        assert init[j] == rows[j];
      }
    }
  }

  /** Two rows for one SSID: the outcome for every combination of in-use flags and signals. */
  lemma TwoRowsForOneSsid(a: Network, b: Network)
    requires a.ssid == b.ssid
    ensures a.ssid in Dedup([a, b])
    ensures b.inUse ==> Dedup([a, b])[a.ssid] == b
    ensures a.inUse && !b.inUse ==> Dedup([a, b])[a.ssid] == a
    ensures !a.inUse && !b.inUse ==> Dedup([a, b])[a.ssid] == (if b.signal > a.signal then b else a)
  {
    assert [a, b][..1] == [a];
    assert [a][..0] == [];
    assert Dedup([a]) == map[a.ssid := a];
    assert Dedup([a, b]) == if Replaces(b, a) then map[a.ssid := b] else map[a.ssid := a];
  }

  /** Orderings as Rust's `cmp` returns them. */
  datatype Ordering = Less | Equal | Greater

  function CompareBool(x: bool, y: bool): Ordering
  {
    if x == y then Equal else if !x then Less else Greater
  }

  function CompareInt(x: int, y: int): Ordering
  {
    if x < y then Less else if x == y then Equal else Greater
  }

  function ThenCompare(first: Ordering, second: Ordering): Ordering
  {
    if first == Equal then second else first
  }

  /** The comparator handed to `sort_by`: in-use first, then stronger signal first. */
  function RankCompare(a: Network, b: Network): Ordering
  {
    ThenCompare(CompareBool(b.inUse, a.inUse), CompareInt(b.signal, a.signal))
  }

  /** Sorted for that comparator: no pair out of order. */
  predicate RankSorted(nets: seq<Network>)
  {
    forall i, j :: 0 <= i < j < |nets| ==> RankCompare(nets[i], nets[j]) != Greater
  }

  predicate NoDuplicateSsids(nets: seq<Network>)
  {
    forall i, j :: 0 <= i < j < |nets| ==> nets[i].ssid != nets[j].ssid
  }

  /** What a ranked listing means: in-use networks come first, and signals never increase among equals. */
  lemma RankSortedMeaning(nets: seq<Network>, i: nat, j: nat)
    requires RankSorted(nets) && i < j < |nets|
    ensures nets[j].inUse ==> nets[i].inUse
    ensures nets[i].inUse == nets[j].inUse ==> nets[i].signal >= nets[j].signal
  {
    assert RankCompare(nets[i], nets[j]) != Greater;
  }

  /** The scan result: the de-duplicated rows, each exactly once, in rank order. */
  ghost predicate IsScanListing(nets: seq<Network>, best: map<string, Network>)
  {
    && |nets| == |best|
    && NoDuplicateSsids(nets)
    && RankSorted(nets)
    && (forall i :: 0 <= i < |nets| ==> nets[i].ssid in best && best[nets[i].ssid] == nets[i])
    && (forall k :: k in best ==> best[k] in nets)
  }

  /** Puts `n` after every network that ranks at least as high, keeping the list ranked. */
  method InsertRanked(nets: seq<Network>, n: Network) returns (r: seq<Network>, p: nat)
    requires RankSorted(nets)
    ensures p <= |nets| && r == nets[..p] + [n] + nets[p..]
    ensures RankSorted(r)
  {
    p := 0;
    while p < |nets| && RankCompare(nets[p], n) != Greater
      invariant p <= |nets|
      invariant forall i :: 0 <= i < p ==> RankCompare(nets[i], n) != Greater
    {
      p := p + 1;
    }
    r := nets[..p] + [n] + nets[p..];
    forall i, j | 0 <= i < j < |r| ensures RankCompare(r[i], r[j]) != Greater {
      if j < p {
        assert r[i] == nets[i] && r[j] == nets[j];
      } else if j == p {
        assert r[i] == nets[i] && r[j] == n;
      } else if i < p {
        assert r[i] == nets[i] && r[j] == nets[j - 1];
      } else if i == p {
        assert r[i] == n && r[j] == nets[j - 1];
        assert RankCompare(nets[p], nets[j - 1]) != Greater;
      } else {
        assert r[i] == nets[i - 1] && r[j] == nets[j - 1];
      }
    }
  }

  /** The state part-way through ranking: the networks of the keys no longer `remaining`, each once, ranked. */
  ghost predicate PartialListing(nets: seq<Network>, best: map<string, Network>, remaining: set<string>)
  {
    && remaining <= best.Keys
    && |nets| + |remaining| == |best|
    && RankSorted(nets)
    && NoDuplicateSsids(nets)
    && (forall i :: 0 <= i < |nets| ==> nets[i].ssid in best && best[nets[i].ssid] == nets[i] && nets[i].ssid !in remaining)
    && (forall k :: k in best && k !in remaining ==> best[k] in nets)
  }

  /** After inserting the network of key `k`, every listed network is still its key's survivor, once, and outside `rest`. */
  lemma InsertStepListed(nets: seq<Network>, best: map<string, Network>, remaining: set<string>, k: string, p: nat, r: seq<Network>)
    requires forall k' :: k' in best ==> best[k'].ssid == k'
    requires PartialListing(nets, best, remaining) && k in remaining
    requires p <= |nets| && r == nets[..p] + [best[k]] + nets[p..]
    ensures forall i :: 0 <= i < |r| ==> r[i].ssid in best && best[r[i].ssid] == r[i] && r[i].ssid !in remaining - {k}
    ensures NoDuplicateSsids(r)
  {
    assert forall i :: 0 <= i < |r| ==> r[i] == (if i < p then nets[i] else if i == p then best[k] else nets[i - 1]);
    forall i, j | 0 <= i < j < |r| ensures r[i].ssid != r[j].ssid {
      if i != p && j != p {
        var i', j' := if i < p then i else i - 1, if j < p then j else j - 1;
        assert r[i] == nets[i'] && r[j] == nets[j'] && i' < j';
      }
    }
  }

  /** After inserting the network of key `k`, every key outside `rest` has its network listed. */
  lemma InsertStepCovers(nets: seq<Network>, best: map<string, Network>, remaining: set<string>, k: string, p: nat, r: seq<Network>)
    requires PartialListing(nets, best, remaining) && k in remaining
    requires p <= |nets| && r == nets[..p] + [best[k]] + nets[p..]
    ensures forall k' :: k' in best && k' !in remaining - {k} ==> best[k'] in r
  {
    forall k' | k' in best && k' !in remaining - {k} ensures best[k'] in r {
      if k' == k {
        assert r[p] == best[k];
      } else {
        var i :| 0 <= i < |nets| && nets[i] == best[k'];
        assert r[if i < p then i else i + 1] == best[k'];
      }
    }
  }

  /** Inserting the network of one remaining key moves that key over to the listed side. */
  lemma InsertStep(nets: seq<Network>, best: map<string, Network>, remaining: set<string>, k: string, p: nat, r: seq<Network>)
    requires forall k' :: k' in best ==> best[k'].ssid == k'
    requires PartialListing(nets, best, remaining) && k in remaining
    requires p <= |nets| && r == nets[..p] + [best[k]] + nets[p..] && RankSorted(r)
    ensures PartialListing(r, best, remaining - {k})
  {
    assert |remaining - {k}| == |remaining| - 1;
    InsertStepListed(nets, best, remaining, k, p, r);
    InsertStepCovers(nets, best, remaining, k, p, r);
  }

  /** `best.into_values().collect()` followed by `sort_by`: every value once, ranked. */
  method RankNetworks(best: map<string, Network>) returns (nets: seq<Network>)
    requires forall k :: k in best ==> best[k].ssid == k
    ensures IsScanListing(nets, best)
  {
    nets := [];
    var remaining := best.Keys;
    assert |remaining| == |best|;
    while remaining != {}
      invariant PartialListing(nets, best, remaining)
      decreases |remaining|
    {
      var k :| k in remaining;
      var p;
      var r;
      r, p := InsertRanked(nets, best[k]);
      InsertStep(nets, best, remaining, k, p, r);
      nets := r;
      remaining := remaining - {k};
    }
  }

  /**
   * The processing of `scan_networks`: a failed command gives the classified
   * error, otherwise every line is parsed, kept rows are folded into `best`
   * by the replacement rule, and the survivors are ranked.
   */
  method ScanNetworks(out: Outcome) returns (r: Result<seq<Network>, string>)
    ensures out.SpawnFailed? ==> r == Err(FriendlyError(out.reason))
    ensures out.Spawned? && !out.success ==> r == Err(FriendlyError(Trim(out.stderr)))
    ensures out.Spawned? && out.success ==> r.Ok? && IsScanListing(r.value, Dedup(ScanRows(out.stdout)))
  {
    if out.SpawnFailed? {
      return Err(FriendlyError(out.reason));
    }
    if !out.success {
      return Err(FriendlyError(Trim(out.stderr)));
    }
    var lines := out.stdout;
    var best: map<string, Network> := map[];
    ghost var rows: seq<Network> := [];
    var i := 0;
    while i < |lines|
      invariant 0 <= i <= |lines|
      invariant rows == ScanRows(lines[..i])
      invariant best == Dedup(rows)
    {
      ScanRowsSnoc(lines, i);
      var fields := Terse.ParseTerseLine(lines[i]);
      if |fields| < 4 {
        assert LineRow(lines[i]).None?;
        i := i + 1;
        continue;
      }
      var ssid := fields[1];
      if ssid == [] {
        assert LineRow(lines[i]).None?;
        i := i + 1;
        continue;
      }
      var signal := ParseU8(fields[2]).GetOr(0);
      var security := fields[3];
      var inUse := Trim(fields[0]) == "*";
      var net := Network(ssid, signal, security, inUse);
      assert LineRow(lines[i]) == Some(net);
      DedupSnoc(rows, net);
      rows := rows + [net];
      if ssid in best {
        var existing := best[ssid];
        if inUse || (!existing.inUse && signal > existing.signal) {
          best := best[ssid := net];
        }
      } else {
        best := best[ssid := net];
      }
      i := i + 1;
    }
    assert lines[..i] == lines;
    var nets := RankNetworks(best);
    r := Ok(nets);
  }

  // ---------------------------------------------------------------------------
  // Saved profiles (src/nmcli.rs:182-213)

  /** One line of `nmcli -t -f NAME,TYPE,ACTIVE connection show`, kept when its type mentions "wireless". */
  function SavedRow(fields: seq<string>): (r: Option<SavedNetwork>)
    ensures r.Some? <==> |fields| >= 3 && Contains(fields[1], "wireless")
    ensures r.Some? ==> r.value.name == fields[0] && (r.value.active <==> fields[2] == "yes")
  {
    if |fields| >= 3 && Contains(fields[1], "wireless") then Some(SavedNetwork(fields[0], fields[2] == "yes"))
    else None
  }

  /** What one raw line of the profile listing contributes. */
  function LineSaved(line: string): Option<SavedNetwork>
  {
    SavedRow(Terse.Fields(line))
  }

  /** The saved profiles in line order. */
  function SavedRows(lines: seq<string>): (saved: seq<SavedNetwork>)
    ensures |saved| <= |lines|
  {
    if lines == [] then []
    else
      var init := SavedRows(lines[..|lines| - 1]);
      match LineSaved(lines[|lines| - 1])
      case Some(s) => init + [s]
      case None => init
  }

  /** Every listed profile comes from a wireless line. */
  lemma {:induction false} SavedRowsSound(lines: seq<string>, s: SavedNetwork)
    requires s in SavedRows(lines)
    ensures exists i :: 0 <= i < |lines| && LineSaved(lines[i]) == Some(s)
  {
    var init := lines[..|lines| - 1];
    if s in SavedRows(init) {
      SavedRowsSound(init, s);
      var i :| 0 <= i < |init| && LineSaved(init[i]) == Some(s);
      assert lines[i] == init[i];
    } else {
      assert LineSaved(lines[|lines| - 1]) == Some(s);
    }
  }

  /** Every wireless line is listed. */
  lemma {:induction false} SavedRowsComplete(lines: seq<string>, i: nat, s: SavedNetwork)
    requires i < |lines| && LineSaved(lines[i]) == Some(s)
    ensures s in SavedRows(lines)
  {
    var init := lines[..|lines| - 1];
    if i < |lines| - 1 {
      assert init[i] == lines[i];
      SavedRowsComplete(init, i, s);
    }
  }

  /** The processing of `saved_networks`: a loop pushing one profile per wireless line. */
  method SavedNetworks(out: Outcome) returns (r: Result<seq<SavedNetwork>, string>)
    ensures out.SpawnFailed? ==> r == Err(FriendlyError(out.reason))
    ensures out.Spawned? && !out.success ==> r == Err(FriendlyError(Trim(out.stderr)))
    ensures out.Spawned? && out.success ==> r == Ok(SavedRows(out.stdout))
  {
    if out.SpawnFailed? {
      return Err(FriendlyError(out.reason));
    }
    if !out.success {
      return Err(FriendlyError(Trim(out.stderr)));
    }
    var lines := out.stdout;
    var networks: seq<SavedNetwork> := [];
    var i := 0;
    while i < |lines|
      invariant 0 <= i <= |lines|
      invariant networks == SavedRows(lines[..i])
    {
      assert lines[..i + 1][..i] == lines[..i];
      var fields := Terse.ParseTerseLine(lines[i]);
      if |fields| >= 3 && Contains(fields[1], "wireless") {
        networks := networks + [SavedNetwork(fields[0], fields[2] == "yes")];
      }
      i := i + 1;
    }
    assert lines[..i] == lines;
    r := Ok(networks);
  }

  // ---------------------------------------------------------------------------
  // Connection status (src/nmcli.rs:109-179)

  /** The in-use row of the wifi listing: at least three fields, first field `*` once trimmed, a non-empty SSID. */
  predicate IsCurrentRow(fields: seq<string>)
  {
    |fields| >= 3 && Trim(fields[0]) == "*" && fields[1] != []
  }

  /** The address row of `nmcli -t -f IP4.ADDRESS device show`. */
  predicate IsAddressRow(fields: seq<string>)
  {
    |fields| >= 2 && "IP4.ADDRESS" <= fields[0]
  }

  /** The bitrate line of `iw dev <device> link`, once trimmed. */
  predicate IsBitrateLine(line: string)
  {
    "tx bitrate:" <= Trim(line)
  }

  ghost predicate FirstCurrentRow(lines: seq<string>, i: int)
  {
    0 <= i < |lines| && IsCurrentRow(Terse.Fields(lines[i]))
    && forall j :: 0 <= j < i ==> !IsCurrentRow(Terse.Fields(lines[j]))
  }

  ghost predicate FirstAddressRow(lines: seq<string>, i: int)
  {
    0 <= i < |lines| && IsAddressRow(Terse.Fields(lines[i]))
    && forall j :: 0 <= j < i ==> !IsAddressRow(Terse.Fields(lines[j]))
  }

  ghost predicate FirstBitrateLine(lines: seq<string>, i: int)
  {
    0 <= i < |lines| && IsBitrateLine(lines[i])
    && forall j :: 0 <= j < i ==> !IsBitrateLine(lines[j])
  }

  /** `split('/').next()`: the address without its prefix length. */
  function BeforeSlash(s: string): (r: string)
    ensures r <= s && '/' !in r
    ensures |r| < |s| ==> s[|r|] == '/'
  {
    if s == [] || s[0] == '/' then [] else [s[0]] + BeforeSlash(s[1..])
  }

  /** The speed shown: the first two words after "tx bitrate:", joined by one space. */
  function Bitrate(trimmed: string): string
  {
    JoinSpace(Take(SplitWhitespace(Trim(TrimStartMatches(trimmed, "tx bitrate:"))), 2))
  }

  /** The speed text holds exactly the first two words of the rate, and nothing else. */
  lemma BitrateWords(trimmed: string)
    ensures SplitWhitespace(Bitrate(trimmed)) == Take(SplitWhitespace(Trim(TrimStartMatches(trimmed, "tx bitrate:"))), 2)
  {
    var ws := Take(SplitWhitespace(Trim(TrimStartMatches(trimmed, "tx bitrate:"))), 2);
    SplitJoinSpace(ws);
  }

  /** The first loop of `get_status`: SSID and signal of the first in-use row. */
  method FindCurrentRow(lines: seq<string>) returns (ssid: Option<string>, signal: Option<U8>)
    ensures ssid.None? ==> signal.None?
    ensures ssid.Some? <==> exists i :: 0 <= i < |lines| && IsCurrentRow(Terse.Fields(lines[i]))
    ensures ssid.Some? ==> exists i :: (FirstCurrentRow(lines, i)
      && ssid.value == Terse.Fields(lines[i])[1] && signal == ParseU8(Terse.Fields(lines[i])[2]))
  {
    ssid, signal := None, None;
    var i := 0;
    while i < |lines|
      invariant 0 <= i <= |lines|
      invariant forall j :: 0 <= j < i ==> !IsCurrentRow(Terse.Fields(lines[j]))
    {
      var fields := Terse.ParseTerseLine(lines[i]);
      if IsCurrentRow(fields) {
        assert FirstCurrentRow(lines, i);
        ssid, signal := Some(fields[1]), ParseU8(fields[2]);
        return;
      }
      i := i + 1;
    }
  }

  /** The second loop: the address of the first `IP4.ADDRESS` row, without its prefix length. */
  method FindAddress(lines: seq<string>) returns (ip: Option<string>)
    ensures ip.Some? <==> exists i :: 0 <= i < |lines| && IsAddressRow(Terse.Fields(lines[i]))
    ensures ip.Some? ==> exists i :: (FirstAddressRow(lines, i)
      && ip.value == BeforeSlash(Terse.Fields(lines[i])[1]))
  {
    ip := None;
    var a := 0;
    while a < |lines|
      invariant 0 <= a <= |lines|
      invariant forall j :: 0 <= j < a ==> !IsAddressRow(Terse.Fields(lines[j]))
    {
      var fields := Terse.ParseTerseLine(lines[a]);
      if |fields| >= 2 && "IP4.ADDRESS" <= fields[0] {
        assert FirstAddressRow(lines, a);
        ip := Some(BeforeSlash(fields[1]));
        return;
      }
      a := a + 1;
    }
  }

  /** The third loop: the rate on the first `tx bitrate:` line of `iw`. */
  method FindBitrate(lines: seq<string>) returns (speed: Option<string>)
    ensures speed.Some? <==> exists i :: 0 <= i < |lines| && IsBitrateLine(lines[i])
    ensures speed.Some? ==> exists i :: (FirstBitrateLine(lines, i)
      && speed.value == Bitrate(Trim(lines[i])))
  {
    speed := None;
    var b := 0;
    while b < |lines|
      invariant 0 <= b <= |lines|
      invariant forall j :: 0 <= j < b ==> !IsBitrateLine(lines[j])
    {
      var trimmed := Trim(lines[b]);
      if "tx bitrate:" <= trimmed {
        assert FirstBitrateLine(lines, b);
        speed := Some(Bitrate(trimmed));
        return;
      }
      b := b + 1;
    }
  }

  /**
   * The processing of `get_status`. The three commands are the wifi listing,
   * the address query and `iw`; each one's output is used whether or not the
   * command succeeded, and a command that could not be started contributes
   * nothing. Address and speed are only looked for once an SSID is known.
   */
  method GetStatus(listing: Outcome, address: Outcome, link: Outcome) returns (st: ConnectionStatus)
    ensures st.ssid.None? ==> st == NotConnected
    ensures st.ssid.Some? <==> exists i :: 0 <= i < |StdoutOf(listing)| && IsCurrentRow(Terse.Fields(StdoutOf(listing)[i]))
    ensures st.ssid.Some? ==> exists i :: (FirstCurrentRow(StdoutOf(listing), i)
      && st.ssid.value == Terse.Fields(StdoutOf(listing)[i])[1]
      && st.signal == ParseU8(Terse.Fields(StdoutOf(listing)[i])[2]))
    ensures st.ssid.Some? ==>
      (st.ip.Some? <==> exists i :: 0 <= i < |StdoutOf(address)| && IsAddressRow(Terse.Fields(StdoutOf(address)[i])))
    ensures st.ip.Some? ==> exists i :: (FirstAddressRow(StdoutOf(address), i)
      && st.ip.value == BeforeSlash(Terse.Fields(StdoutOf(address)[i])[1]))
    ensures st.ssid.Some? ==>
      (st.speed.Some? <==> exists i :: 0 <= i < |StdoutOf(link)| && IsBitrateLine(StdoutOf(link)[i]))
    ensures st.speed.Some? ==> exists i :: (FirstBitrateLine(StdoutOf(link), i)
      && st.speed.value == Bitrate(Trim(StdoutOf(link)[i])))
  {
    st := NotConnected;
    var ssid, signal := FindCurrentRow(StdoutOf(listing));
    st := st.(ssid := ssid, signal := signal);
    if st.ssid.Some? {
      var ip := FindAddress(StdoutOf(address));
      st := st.(ip := ip);
      var speed := FindBitrate(StdoutOf(link));
      st := st.(speed := speed);
    }
  }

  // ---------------------------------------------------------------------------
  // Connect, disconnect, forget (src/nmcli.rs:217-277)

  /** The nmcli arguments `connect` chooses from the three-way password signal. */
  function ConnectArgs(ssid: string, password: Option<string>): seq<string>
  {
    match password
    case Some(pw) =>
      if pw != [] then ["device", "wifi", "connect", ssid, "password", pw]
      else ["device", "wifi", "connect", ssid]
    case None => ["connection", "up", ssid]
  }

  /**
   * A non-empty password is passed to `device wifi connect`; an empty one
   * joins without a password; no password reconnects the saved profile.
   */
  lemma ConnectArgsThreeWay(ssid: string, password: Option<string>)
    ensures var args := ConnectArgs(ssid, password);
      && (args[0] == "connection" <==> password.None?)
      && (password.Some? ==> args[..4] == ["device", "wifi", "connect", ssid])
      && (password.None? ==> args == ["connection", "up", ssid])
      && (|args| == 6 <==> password.Some? && password.value != [])
      && (|args| == 6 ==> args[4] == "password" && args[5] == password.value)
    ensures password == Some([]) ==> ConnectArgs(ssid, password) == ["device", "wifi", "connect", ssid]
    ensures password.Some? && password.value != [] ==>
      ConnectArgs(ssid, password) == ["device", "wifi", "connect", ssid, "password", password.value]
  {
  }

  /** How one control command ends: the fixed success text, or the classified error. */
  function CommandResult(out: Outcome, success: string): (r: Result<string, string>)
    ensures r.Ok? <==> out.Spawned? && out.success
    ensures r.Ok? ==> r.value == success
    ensures out.SpawnFailed? ==> r == Err(FriendlyError(out.reason))
    ensures out.Spawned? && !out.success ==> r == Err(FriendlyError(Trim(out.stderr)))
  {
    match out
    case SpawnFailed(reason) => Err(FriendlyError(reason))
    case Spawned(ok, _, stderr) => if ok then Ok(success) else Err(FriendlyError(Trim(stderr)))
  }

  function ConnectedText(ssid: string): string
  {
    "Connected to " + ssid
  }

  const DisconnectedText := "Disconnected."

  function ForgotText(name: string): string
  {
    "Forgot network '" + name + "'."
  }

  /** `connect`, given the outcome of the nmcli command that `ConnectArgs` chose for the SSID and password signal. */
  function Connect(ssid: string, out: Outcome): Result<string, string>
  {
    CommandResult(out, ConnectedText(ssid))
  }

  /** `disconnect`, given the outcome of `nmcli device disconnect <device>`. */
  function Disconnect(out: Outcome): Result<string, string>
  {
    CommandResult(out, DisconnectedText)
  }

  /** `forget`, given the outcome of `nmcli connection delete <name>`. */
  function Forget(name: string, out: Outcome): Result<string, string>
  {
    CommandResult(out, ForgotText(name))
  }
}
