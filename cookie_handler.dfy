/**
 * Conversion of a Cookie-Editor export into Playwright cookie records
 * (convert_cookie_editor_to_playwright): a whitelist copy, the session /
 * expirationDate mapping, the case-insensitive sameSite mapping, and the
 * completeness filter that drops (and warns about) incomplete records.
 */
module CookieHandler {
  import opened Wrappers
  import opened Json

  /** A browser-ready cookie: the dict handed to the browser context. */
  type Record = map<string, Value>

  /** Keys copied unchanged when the exported record has them, in the source's order. */
  const CopiedKeys: seq<string> := ["name", "value", "domain", "path", "httpOnly", "secure"]

  /** Keys a record must carry to be emitted. */
  const RequiredKeys: set<string> := {"name", "value", "domain", "path"}

  /** Every key an emitted record may carry. */
  const AllowedKeys: set<string> :=
    {"name", "value", "domain", "path", "expires", "httpOnly", "secure", "sameSite"}

  /** `int(expirationDate)` raised: the whole conversion stops with this error. */
  datatype ConvertError = NotAnInteger(value: Value)

  /** The digits of `s` as a number, if `s` is a non-empty run of ASCII digits. */
  function ParseDigits(s: string): (r: Option<nat>)
    ensures r.Some? <==> s != [] && forall i :: 0 <= i < |s| ==> '0' <= s[i] <= '9'
  {
    if s == [] then None
    else if !('0' <= s[|s| - 1] <= '9') then None
    else if |s| == 1 then Some(s[0] as int - '0' as int)
    else
      match ParseDigits(s[..|s| - 1])
      case None => None
      case Some(n) => Some(10 * n + (s[|s| - 1] as int - '0' as int))
  }

  /** Python's `int(x)` on a string: an optional sign and decimal digits. */
  function ParseInt(s: string): Option<int> {
    if |s| > 0 && (s[0] == '-' || s[0] == '+') then
      match ParseDigits(s[1..])
      case None => None
      case Some(n) => var m: int := n; Some(if s[0] == '-' then -m else m)
    else
      match ParseDigits(s)
      case None => None
      case Some(n) => Some(n)
  }

  /** Python's `int(x)`; None where it raises. */
  function PyInt(v: Value): Option<int> {
    match v
    case Num(n) => Some(n)
    case Bool(b) => Some(if b then 1 else 0)
    case Str(s) => ParseInt(s)
    case _ => None
  }

  /** `cookie.get('session', False)`, read as a condition. */
  predicate SessionFlag(c: Dict) {
    match Get(c, "session")
    case None => false
    case Some(v) => Truthy(v)
  }

  function UpperChar(ch: char): char {
    if 'a' <= ch <= 'z' then (ch as int - 32) as char else ch
  }

  /** `str.capitalize()` on ASCII text. */
  function Capitalize(s: string): string {
    if s == [] then [] else [UpperChar(s[0])] + Lower(s[1..])
  }

  /** Capitalizing ignores the case of the input. */
  lemma CapitalizeIgnoresCase(s: string)
    ensures Capitalize(s) == Capitalize(Lower(s))
  {
    if s != [] {
      var l := Lower(s);
      assert l[0] == LowerChar(s[0]);
      assert UpperChar(LowerChar(s[0])) == UpperChar(s[0]);
      assert l[1..] == Lower(s[1..]) by {
        assert forall i :: 0 <= i < |s| - 1 ==> l[1..][i] == LowerChar(s[1..][i]);
      }
      LowerIdempotent(s[1..]);
    }
  }

  /** Capitalizing text without upper-case letters upper-cases its first letter only. */
  lemma CapitalizeLowercase(s: string)
    requires s != [] && forall i :: 0 <= i < |s| ==> !('A' <= s[i] <= 'Z')
    ensures Capitalize(s) == [UpperChar(s[0])] + s[1..]
  {
    LowerKeepsLowercase(s[1..]);
  }

  /** The capitalized forms of the same-site keywords. */
  lemma CapitalizedKeywords()
    ensures Capitalize("lax") == "Lax"
    ensures Capitalize("strict") == "Strict"
    ensures Capitalize("none") == "None"
  {
    CapitalizeLax();
    CapitalizeStrict();
    CapitalizeNone();
  }

  lemma CapitalizeLax()
    ensures Capitalize("lax") == "Lax"
  {
    CapitalizeLowercase("lax");
  }

  lemma CapitalizeStrict()
    ensures Capitalize("strict") == "Strict"
  {
    CapitalizeLowercase("strict");
  }

  lemma CapitalizeNone()
    ensures Capitalize("none") == "None"
  {
    CapitalizeLowercase("none");
  }

  /** The browser's sameSite value for an exported one; None means the key is omitted. */
  function SameSite(v: Value): (r: Option<string>)
    ensures r.Some? <==> LowerText(v) in {"no_restriction", "lax", "strict", "unspecified"}
    ensures r.Some? ==> r.value in {"None", "Lax", "Strict"}
    ensures LowerText(v) == "no_restriction" ==> r == Some("None")
    ensures LowerText(v) == "lax" || LowerText(v) == "unspecified" ==> r == Some("Lax")
    ensures LowerText(v) == "strict" ==> r == Some("Strict")
  {
    var t := LowerText(v);
    CapitalizedKeywords();
    if t == "no_restriction" then Some("None")
    else if t == "lax" || t == "strict" then Some(Capitalize(t))
    else if t == "unspecified" then Some("Lax")
    else None
  }

  /** The mapping ignores case: `No_Restriction` gives `None`. */
  lemma SameSiteNoRestriction()
    ensures SameSite(Str("No_Restriction")) == Some("None")
  {
    LowerNoRestriction();
  }

  lemma LowerNoRestriction()
    ensures Lower("No_Restriction") == "no_restriction"
  {
    LowerOf("No_Restriction", "no_restriction");
  }

  /** The mapping ignores case: `STRICT` gives `Strict`. */
  lemma SameSiteUpperStrict()
    ensures SameSite(Str("STRICT")) == Some("Strict")
  {
    LowerUpperStrict();
  }

  lemma LowerUpperStrict()
    ensures Lower("STRICT") == "strict"
  {
    LowerOf("STRICT", "strict");
  }

  /** `None` in any case, and a null, are omitted rather than passed on. */
  lemma SameSiteNoneOmitted()
    ensures SameSite(Str("None")) == None
    ensures SameSite(Null) == None
  {
    LowerNone();
  }

  /** The whitelisted keys of `c`, copied unchanged. */
  function Whitelisted(c: Dict): (r: Record)
    ensures r.Keys <= RequiredKeys + {"httpOnly", "secure"}
    ensures forall k :: k in CopiedKeys ==> (k in r <==> k in KeysOf(c)) && (k in r ==> Get(c, k) == Some(r[k]))
  {
    map k | k in CopiedKeys && k in KeysOf(c) :: Get(c, k).value
  }

  /** The `expires` value the record gets: None when it gets no such key,
      Err when `int()` raises on the export's expirationDate. */
  function Expiry(c: Dict): (r: Result<Option<int>, ConvertError>)
    ensures r.Err? <==>
      !SessionFlag(c) && Get(c, "expirationDate").Some? && Get(c, "expirationDate").value != Null
      && PyInt(Get(c, "expirationDate").value).None?
    // a truthy session flag wins over any expirationDate
    ensures SessionFlag(c) ==> r == Ok(Some(-1))
    ensures !SessionFlag(c) && Get(c, "expirationDate") == Some(Null) ==> r == Ok(Some(-1))
    ensures !SessionFlag(c) && Get(c, "expirationDate").Some? && PyInt(Get(c, "expirationDate").value).Some? ==>
      r == Ok(Some(PyInt(Get(c, "expirationDate").value).value))
    // no default expiry
    ensures !SessionFlag(c) && "expirationDate" !in KeysOf(c) ==> r == Ok(None)
  {
    if SessionFlag(c) then Ok(Some(-1))
    else
      match Get(c, "expirationDate")
      case None => Ok(None)
      case Some(Null) => Ok(Some(-1))
      case Some(v) =>
        match PyInt(v)
        case Some(n) => Ok(Some(n))
        case None => Err(NotAnInteger(v))
  }

  /** The sameSite value the record gets, if any. */
  function SameSiteOf(c: Dict): Option<string> {
    if Get(c, "sameSite").Some? then SameSite(Get(c, "sameSite").value) else None
  }

  /** The record built from one exported cookie, before the completeness filter. */
  function PlaywrightCookie(c: Dict): Result<Record, ConvertError> {
    match Expiry(c)
    case Err(e) => Err(e)
    case Ok(exp) =>
      var base := Whitelisted(c);
      var withExpiry := if exp.Some? then base["expires" := Num(exp.value)] else base;
      var sameSite := SameSiteOf(c);
      Ok(if sameSite.Some? then withExpiry["sameSite" := Str(sameSite.value)] else withExpiry)
  }

  /**
   * What one converted record holds: only allowed keys; the whitelisted keys
   * exactly when the export has them, unchanged; `expires` and `sameSite`
   * exactly when their mappings give a value, with that value. The
   * conversion fails exactly when the expiry does.
   */
  lemma PlaywrightCookieShape(c: Dict)
    ensures var r := PlaywrightCookie(c);
      && (r.Err? <==> Expiry(c).Err?)
      && (r.Ok? ==> r.value.Keys <= AllowedKeys)
      && (r.Ok? ==> forall k :: k in CopiedKeys ==>
            (k in r.value <==> k in KeysOf(c)) && (k in r.value ==> Get(c, k) == Some(r.value[k])))
      && (r.Ok? ==> ("expires" in r.value <==> Expiry(c).value.Some?))
      && (r.Ok? && "expires" in r.value ==> r.value["expires"] == Num(Expiry(c).value.value))
      && (r.Ok? ==> ("sameSite" in r.value <==> SameSiteOf(c).Some?))
      && (r.Ok? && "sameSite" in r.value ==> r.value["sameSite"] == Str(SameSiteOf(c).value))
  {
    assert "expires" !in CopiedKeys && "sameSite" !in CopiedKeys;
  }

  /** The completeness filter. */
  predicate Complete(r: Record) {
    RequiredKeys <= r.Keys
  }

  /** How far the conversion got: records kept, input records dropped (one
      warning each), and the error that stopped it, if any. */
  datatype Progress = Progress(kept: seq<Record>, dropped: seq<Dict>, failure: Option<ConvertError>)

  /** The conversion of `cs`, one record after the other; the first error stops it. */
  function Convert(cs: seq<Dict>): Progress {
    if cs == [] then Progress([], [], None)
    else
      var p := Convert(cs[..|cs| - 1]);
      var c := cs[|cs| - 1];
      if p.failure.Some? then p
      else
        match PlaywrightCookie(c)
        case Err(e) => p.(failure := Some(e))
        case Ok(r) => if Complete(r) then p.(kept := p.kept + [r]) else p.(dropped := p.dropped + [c])
  }

  /** Once a prefix fails, the conversion of the whole list is that failure. */
  lemma {:induction false} FailureIsFinal(cs: seq<Dict>, j: nat)
    requires j <= |cs|
    requires Convert(cs[..j]).failure.Some?
    ensures Convert(cs) == Convert(cs[..j])
    decreases |cs| - j
  {
    if j < |cs| {
      assert cs[..j + 1][..j] == cs[..j];
      FailureIsFinal(cs, j + 1);
    } else {
      assert cs[..j] == cs;
    }
  }

  /** A converted record passes the filter exactly when the export has name,
      value, domain and path: expiry and sameSite never make a record complete. */
  lemma CompleteIffExportComplete(c: Dict)
    requires PlaywrightCookie(c).Ok?
    ensures Complete(PlaywrightCookie(c).value) <==> RequiredKeys <= KeysOf(c)
  {
    var r := PlaywrightCookie(c).value;
    PlaywrightCookieShape(c);
    assert forall k :: k in RequiredKeys ==> k in CopiedKeys;
    if RequiredKeys <= KeysOf(c) {
      assert forall k :: k in RequiredKeys ==> k in r;
    }
  }

  /** Whether the last record of `cs` is kept. */
  predicate KeepsLast(cs: seq<Dict>)
    requires cs != []
  {
    var r := PlaywrightCookie(cs[|cs| - 1]);
    Convert(cs[..|cs| - 1]).failure.None? && r.Ok? && Complete(r.value)
  }

  /** For each kept record, the index of the exported record it came from. */
  function KeptOrigins(cs: seq<Dict>): seq<nat> {
    if cs == [] then []
    else if KeepsLast(cs) then KeptOrigins(cs[..|cs| - 1]) + [|cs| - 1]
    else KeptOrigins(cs[..|cs| - 1])
  }

  /** The origins are indices of `cs`, in strictly increasing order. */
  lemma {:induction false} KeptOriginsIncrease(cs: seq<Dict>)
    ensures forall k :: 0 <= k < |KeptOrigins(cs)| ==> KeptOrigins(cs)[k] < |cs|
    ensures forall k1, k2 :: 0 <= k1 < k2 < |KeptOrigins(cs)| ==> KeptOrigins(cs)[k1] < KeptOrigins(cs)[k2]
  {
    if cs != [] {
      var init := cs[..|cs| - 1];
      var idx := KeptOrigins(init);
      KeptOriginsIncrease(init);
      if KeepsLast(cs) {
        AppendIndex(idx, |init|);
      }
    }
  }

  /** Appending an index above every earlier one keeps the indices increasing. */
  lemma AppendIndex(idx: seq<nat>, n: nat)
    requires forall k :: 0 <= k < |idx| ==> idx[k] < n
    requires forall k1, k2 :: 0 <= k1 < k2 < |idx| ==> idx[k1] < idx[k2]
    ensures forall k :: 0 <= k < |idx + [n]| ==> (idx + [n])[k] < n + 1
    ensures forall k1, k2 :: 0 <= k1 < k2 < |idx + [n]| ==> (idx + [n])[k1] < (idx + [n])[k2]
  {
  }

  /** Kept record k is the conversion of exported record KeptOrigins(cs)[k],
      which has name, value, domain and path. */
  lemma {:induction false} KeptFromOrigins(cs: seq<Dict>)
    ensures |KeptOrigins(cs)| == |Convert(cs).kept|
    ensures forall k :: 0 <= k < |KeptOrigins(cs)| && KeptOrigins(cs)[k] < |cs| ==>
      PlaywrightCookie(cs[KeptOrigins(cs)[k]]) == Ok(Convert(cs).kept[k])
      && RequiredKeys <= KeysOf(cs[KeptOrigins(cs)[k]])
  {
    if cs != [] {
      var init := cs[..|cs| - 1];
      var c := cs[|cs| - 1];
      var kept, idx := Convert(init).kept, KeptOrigins(init);
      KeptFromOrigins(init);
      KeptOriginsIncrease(init);
      assert forall k :: 0 <= k < |init| ==> init[k] == cs[k];
      if KeepsLast(cs) {
        var r := PlaywrightCookie(c).value;
        CompleteIffExportComplete(c);
        assert Convert(cs).kept == kept + [r];
        assert KeptOrigins(cs) == idx + [|init|];
        forall k | 0 <= k < |idx| + 1
          ensures PlaywrightCookie(cs[(idx + [|init|])[k]]) == Ok((kept + [r])[k])
          ensures RequiredKeys <= KeysOf(cs[(idx + [|init|])[k]])
        {
          if k < |idx| {
            assert (idx + [|init|])[k] == idx[k] && (kept + [r])[k] == kept[k];
          }
        }
      } else {
        assert Convert(cs).kept == kept;
        assert KeptOrigins(cs) == idx;
      }
    }
  }

  /**
   * Record i is kept exactly when no earlier record made int() fail, its own
   * conversion succeeds, and it has name, value, domain and path.
   */
  lemma {:induction false} KeptIff(cs: seq<Dict>, i: nat)
    requires i < |cs|
    ensures i in KeptOrigins(cs) <==>
      Convert(cs[..i]).failure.None? && PlaywrightCookie(cs[i]).Ok? && RequiredKeys <= KeysOf(cs[i])
  {
    var init := cs[..|cs| - 1];
    KeptOriginsIncrease(init);
    if PlaywrightCookie(cs[i]).Ok? {
      CompleteIffExportComplete(cs[i]);
    }
    if i < |init| {
      assert init[i] == cs[i] && init[..i] == cs[..i];
      KeptIff(init, i);
    }
  }

  /** Whether the last record of `cs` is dropped, with a warning. */
  predicate DropsLast(cs: seq<Dict>)
    requires cs != []
  {
    var r := PlaywrightCookie(cs[|cs| - 1]);
    Convert(cs[..|cs| - 1]).failure.None? && r.Ok? && !Complete(r.value)
  }

  /** For each dropped record, its index in the export. */
  function DroppedOrigins(cs: seq<Dict>): seq<nat> {
    if cs == [] then []
    else if DropsLast(cs) then DroppedOrigins(cs[..|cs| - 1]) + [|cs| - 1]
    else DroppedOrigins(cs[..|cs| - 1])
  }

  /** The dropped origins are indices of `cs`, in strictly increasing order. */
  lemma {:induction false} DroppedOriginsIncrease(cs: seq<Dict>)
    ensures forall k :: 0 <= k < |DroppedOrigins(cs)| ==> DroppedOrigins(cs)[k] < |cs|
    ensures forall k1, k2 :: 0 <= k1 < k2 < |DroppedOrigins(cs)| ==> DroppedOrigins(cs)[k1] < DroppedOrigins(cs)[k2]
  {
    if cs != [] {
      var init := cs[..|cs| - 1];
      DroppedOriginsIncrease(init);
      if DropsLast(cs) {
        AppendIndex(DroppedOrigins(init), |init|);
      }
    }
  }

  /** Dropped record k is exported record DroppedOrigins(cs)[k] itself. */
  lemma {:induction false} DroppedFromOrigins(cs: seq<Dict>)
    ensures |DroppedOrigins(cs)| == |Convert(cs).dropped|
    ensures forall k :: 0 <= k < |DroppedOrigins(cs)| && DroppedOrigins(cs)[k] < |cs| ==>
      Convert(cs).dropped[k] == cs[DroppedOrigins(cs)[k]]
  {
    if cs != [] {
      var init := cs[..|cs| - 1];
      var c := cs[|cs| - 1];
      var dropped, idx := Convert(init).dropped, DroppedOrigins(init);
      DroppedFromOrigins(init);
      DroppedOriginsIncrease(init);
      assert forall k :: 0 <= k < |init| ==> init[k] == cs[k];
      if DropsLast(cs) {
        assert Convert(cs).dropped == dropped + [c];
        assert DroppedOrigins(cs) == idx + [|init|];
        forall k | 0 <= k < |idx| + 1
          ensures (dropped + [c])[k] == cs[(idx + [|init|])[k]]
        {
          if k < |idx| {
            assert (idx + [|init|])[k] == idx[k] && (dropped + [c])[k] == dropped[k];
          }
        }
      } else {
        assert Convert(cs).dropped == dropped;
        assert DroppedOrigins(cs) == idx;
      }
    }
  }

  /**
   * Record i is dropped (and warned about) exactly when no earlier record
   * made int() fail, its own conversion succeeds, and it lacks one of name,
   * value, domain and path.
   */
  lemma {:induction false} DroppedIff(cs: seq<Dict>, i: nat)
    requires i < |cs|
    ensures i in DroppedOrigins(cs) <==>
      Convert(cs[..i]).failure.None? && PlaywrightCookie(cs[i]).Ok? && !(RequiredKeys <= KeysOf(cs[i]))
  {
    var init := cs[..|cs| - 1];
    DroppedOriginsIncrease(init);
    if PlaywrightCookie(cs[i]).Ok? {
      CompleteIffExportComplete(cs[i]);
    }
    if i < |init| {
      assert init[i] == cs[i] && init[..i] == cs[..i];
      DroppedIff(init, i);
    }
  }

  /**
   * The output is an order-preserving subsequence of the converted input:
   * kept record k comes from exported record KeptOrigins(cs)[k], the origins
   * strictly increase, and every origin has name, value, domain and path.
   */
  lemma KeptIsOrderedSubsequence(cs: seq<Dict>)
    ensures var kept, idx := Convert(cs).kept, KeptOrigins(cs);
      && |idx| == |kept|
      && (forall k :: 0 <= k < |idx| ==>
            idx[k] < |cs| && PlaywrightCookie(cs[idx[k]]) == Ok(kept[k]) && RequiredKeys <= KeysOf(cs[idx[k]]))
      && (forall k1, k2 :: 0 <= k1 < k2 < |idx| ==> idx[k1] < idx[k2])
  {
    KeptOriginsIncrease(cs);
    KeptFromOrigins(cs);
  }

  /**
   * Every kept record has name, value, domain and path; every dropped input
   * record lacks one of them; without an error, every input record is either
   * kept or dropped, so at most as many records come out as went in. Before
   * the first int() failure, exactly the complete records are kept and
   * exactly the incomplete ones are dropped, in input order, one warning each.
   */
  lemma {:induction false} ConvertPartitions(cs: seq<Dict>)
    ensures var p := Convert(cs);
      && (forall k :: 0 <= k < |p.kept| ==> RequiredKeys <= p.kept[k].Keys)
      && (forall d :: d in p.dropped ==> d in cs && !(RequiredKeys <= KeysOf(d)))
      && |p.kept| + |p.dropped| <= |cs|
      && (p.failure.None? ==> |p.kept| + |p.dropped| == |cs|)
    ensures forall i :: 0 <= i < |cs| ==>
      (i in KeptOrigins(cs) <==>
        Convert(cs[..i]).failure.None? && PlaywrightCookie(cs[i]).Ok? && RequiredKeys <= KeysOf(cs[i]))
    ensures forall i :: 0 <= i < |cs| ==>
      (i in DroppedOrigins(cs) <==>
        Convert(cs[..i]).failure.None? && PlaywrightCookie(cs[i]).Ok? && !(RequiredKeys <= KeysOf(cs[i])))
    ensures |DroppedOrigins(cs)| == |Convert(cs).dropped|
    ensures forall k :: 0 <= k < |DroppedOrigins(cs)| ==>
      DroppedOrigins(cs)[k] < |cs| && Convert(cs).dropped[k] == cs[DroppedOrigins(cs)[k]]
    ensures forall k1, k2 :: 0 <= k1 < k2 < |DroppedOrigins(cs)| ==> DroppedOrigins(cs)[k1] < DroppedOrigins(cs)[k2]
  {
    if cs != [] {
      var init := cs[..|cs| - 1];
      var c := cs[|cs| - 1];
      ConvertPartitions(init);
      assert forall d :: d in init ==> d in cs;
      if Convert(init).failure.None? && PlaywrightCookie(c).Ok? {
        CompleteIffExportComplete(c);
      }
    }
    DroppedOriginsIncrease(cs);
    DroppedFromOrigins(cs);
    forall i | 0 <= i < |cs|
      ensures i in KeptOrigins(cs) <==>
        Convert(cs[..i]).failure.None? && PlaywrightCookie(cs[i]).Ok? && RequiredKeys <= KeysOf(cs[i])
      ensures i in DroppedOrigins(cs) <==>
        Convert(cs[..i]).failure.None? && PlaywrightCookie(cs[i]).Ok? && !(RequiredKeys <= KeysOf(cs[i]))
    {
      KeptIff(cs, i);
      DroppedIff(cs, i);
    }
  }

  /** Builds one record (cookie_handler.py lines 9-28), by dict assignments. */
  method ToPlaywrightCookie(cookie: Dict) returns (r: Result<Record, ConvertError>)
    ensures r == PlaywrightCookie(cookie)
  {
    var pw: Record := map[];
    for j := 0 to |CopiedKeys|
      invariant pw == map k | k in CopiedKeys[..j] && k in KeysOf(cookie) :: Get(cookie, k).value
    {
      var key := CopiedKeys[j];
      var v := Get(cookie, key);
      if v.Some? {
        pw := pw[key := v.value];
      }
      assert CopiedKeys[..j + 1] == CopiedKeys[..j] + [key];
    }
    assert CopiedKeys[..|CopiedKeys|] == CopiedKeys;
    assert pw == Whitelisted(cookie);
    ghost var base := pw;
    if SessionFlag(cookie) {
      pw := pw["expires" := Num(-1)];
    } else {
      var exp := Get(cookie, "expirationDate");
      if exp.Some? {
        if exp.value != Null {
          var n := PyInt(exp.value);
          if n.None? {
            return Err(NotAnInteger(exp.value));
          }
          pw := pw["expires" := Num(n.value)];
        } else {
          pw := pw["expires" := Num(-1)];
        }
      }
    }
    assert Expiry(cookie).Ok?;
    assert pw == if Expiry(cookie).value.Some? then base["expires" := Num(Expiry(cookie).value.value)] else base;
    var sameSite := Get(cookie, "sameSite");
    if sameSite.Some? {
      var t := LowerText(sameSite.value);
      if t == "no_restriction" {
        pw := pw["sameSite" := Str("None")];
      } else if t == "lax" || t == "strict" {
        pw := pw["sameSite" := Str(Capitalize(t))];
      } else if t == "unspecified" {
        pw := pw["sameSite" := Str("Lax")];
      }
    }
    r := Ok(pw);
  }

  /**
   * convert_cookie_editor_to_playwright. `hasLogger` says whether a logger
   * was passed; `warnings` lists the records it was warned about. On an
   * error the function raises: `result` is that error, and `warnings` what
   * was already logged.
   */
  method ConvertCookieEditorToPlaywright(cookies: seq<Dict>, hasLogger: bool)
    returns (result: Result<seq<Record>, ConvertError>, warnings: seq<Dict>)
    ensures var p := Convert(cookies);
      && result == (if p.failure.Some? then Err(p.failure.value) else Ok(p.kept))
      && warnings == (if hasLogger then p.dropped else [])
  {
    var kept: seq<Record> := [];
    var dropped: seq<Dict> := [];
    warnings := [];
    var i := 0;
    while i < |cookies|
      invariant 0 <= i <= |cookies|
      invariant Convert(cookies[..i]) == Progress(kept, dropped, None)
      invariant warnings == if hasLogger then dropped else []
    {
      var cookie := cookies[i];
      assert cookies[..i + 1][..i] == cookies[..i];
      var pw := ToPlaywrightCookie(cookie);
      if pw.Err? {
        FailureIsFinal(cookies, i + 1);
        return Err(pw.error), warnings;
      }
      if Complete(pw.value) {
        kept := kept + [pw.value];
      } else {
        dropped := dropped + [cookie];
        if hasLogger {
          warnings := warnings + [cookie];
        }
      }
      i := i + 1;
    }
    assert cookies[..i] == cookies;
    result := Ok(kept);
  }
}
