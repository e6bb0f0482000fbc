/**
 * The helpers of middleware/cookies.js that do not touch the request or the
 * response: value coercion, `stringify`, `decode`, `getCookie`, the client-side
 * parse of `document.cookie`, the updates `setCookies` applies to the cookie
 * map and to the parsed `Cookie` header, the rebuild of that header, and
 * `checkCookies`.
 */
module Cookies {
  import opened Wrappers
  import opened Strings
  import opened JsValues
  import opened PercentDecoding

  /** The strings `processValue` turns into other values. */
  const Keywords: set<string> := {"true", "false", "undefined", "null"}

  /** `processValue(value)`: the four keyword strings become the values they
      spell; every other value is returned as it is. */
  function ProcessValue(v: Value): (r: Value)
    ensures r != v ==> v.Str? && v.s in Keywords
    ensures v.Str? && v.s in Keywords ==> !r.Str? && ToJsString(r) == v.s
  {
    if v == Str("true") then Bool(true)
    else if v == Str("false") then Bool(false)
    else if v == Str("undefined") then Undefined
    else if v == Str("null") then Null
    else v
  }

  /** `processValue` reads back what `String()` wrote for a boolean, `null` or `undefined`. */
  lemma ProcessValueInvertsString(v: Value)
    requires v.Bool? || v.Null? || v.Undefined?
    ensures ProcessValue(Str(ToJsString(v))) == v
  {
  }

  /** `stringify(value = '')`: the JSON text when it starts with `{` or `[`
      (arrays and objects), otherwise the value itself; `undefined` takes the
      default ''. */
  function Stringify(v: Value): (r: Value)
    ensures v.Arr? || v.Obj? ==> JsonText(v).Some? && r == Str(JsonText(v).value)
    ensures !v.Arr? && !v.Obj? ==> r == (if v.Undefined? then Str("") else v)
  {
    var value := if v.Undefined? then Str("") else v;
    match JsonText(value)
    case None => value
    case Some(result) =>
      JsonTextStart(value);
      if |result| > 0 && (result[0] == '{' || result[0] == '[') then Str(result) else value
  }

  /** `decode(str)`: falsy values are returned unchanged, a string has its
      runs of upper-case escapes decoded, and any other value has no
      `replace` method to call. */
  function Decode(v: Value): (r: Result<Value, JsError>)
    ensures !Truthy(v) ==> r == Ok(v)
    ensures Truthy(v) && !v.Str? ==> r == Err(TypeError)
    ensures v.Str? && '%' !in v.s ==> r == Ok(v)
    ensures v.Str? && Truthy(v) ==>
      && (r.Ok? <==> DecodeEscapes(v.s).Ok?)
      && (r.Ok? ==> r == Ok(Str(DecodeEscapes(v.s).value)))
      && (r.Err? ==> r.error == URIError)
  {
    if !Truthy(v) then Ok(v)
    else if !v.Str? then Err(TypeError)
    else
      if '%' !in v.s then NoPercentUnchanged(v.s); Ok(v)
      else
        match DecodeEscapes(v.s)
        case Ok(s) => Ok(Str(s))
        case Err(e) => Err(e)
  }

  /** The properties every plain object inherits from `Object.prototype`:
      `_cookies[name]` finds them when the object has no own property of
      that name. `__proto__` reads the prototype itself; the others are methods. */
  const InheritedNames: set<string> := {
    "constructor", "hasOwnProperty", "isPrototypeOf", "propertyIsEnumerable",
    "toLocaleString", "toString", "valueOf", "__proto__",
    "__defineGetter__", "__defineSetter__", "__lookupGetter__", "__lookupSetter__"}

  /** `getCookie(key)` over the map `getCookies` returned. An inherited
      member is an object or a function: truthy, and without `replace`. */
  function GetCookie(key: string, cookies: map<string, Value>): (r: Result<Value, JsError>)
    ensures key !in cookies && key !in InheritedNames ==> r == Ok(Undefined)
    ensures key !in cookies && key in InheritedNames ==> r == Err(TypeError)
    ensures key in cookies && cookies[key].Str? && '%' !in cookies[key].s ==> r == Ok(ProcessValue(cookies[key]))
    ensures key in cookies && Truthy(cookies[key]) && !cookies[key].Str? ==> r == Err(TypeError)
    ensures key in cookies ==>
      r == (if Decode(cookies[key]).Ok? then Ok(ProcessValue(Decode(cookies[key]).value)) else Err(Decode(cookies[key]).error))
  {
    if key !in cookies && key in InheritedNames then Err(TypeError)
    else
      var raw := if key in cookies then cookies[key] else Undefined;
      match Decode(raw)
      case Ok(d) => Ok(ProcessValue(d))
      case Err(e) => Err(e)
  }

  // Client side: `document.cookie` split on "; ", each piece at its first "=".

  /** `document.cookie ? document.cookie.split('; ') : []`; joining the pieces gives the text back. */
  function CookiePieces(documentCookie: string): (pieces: seq<string>)
    ensures documentCookie == "" ==> pieces == []
    ensures documentCookie != "" ==> |pieces| >= 1 && Join(pieces, "; ") == documentCookie
  {
    if documentCookie == "" then []
    else
      JoinSplit(documentCookie, "; ");
      Split(documentCookie, "; ")
  }

  /** `cookieParts[0]`: the text before the first `=`, or the whole piece. */
  function NameOf(piece: string): (name: string)
    ensures |name| <= |piece| && name == piece[..|name|] && '=' !in name
    ensures |name| < |piece| ==> piece[|name|] == '='
  {
    if '=' in piece then
      SplitAtFirst(piece, '=', FirstIndexOf(piece, '='));
      Split(piece, "=")[0]
    else
      SplitWithout(piece, '=');
      Split(piece, "=")[0]
  }

  /** `cookieParts.slice(1).join('=')`: the text after the first `=`, or "". */
  function ValueOf(piece: string): (value: string)
    ensures |NameOf(piece)| == |piece| ==> value == ""
    ensures |NameOf(piece)| < |piece| ==> value == piece[|NameOf(piece)| + 1..]
  {
    if '=' in piece then
      var k := FirstIndexOf(piece, '=');
      SplitAtFirst(piece, '=', k);
      assert Split(piece, "=")[1..] == Split(piece[k + 1..], "=");
      JoinSplit(piece[k + 1..], "=");
      Join(Split(piece, "=")[1..], "=")
    else
      SplitWithout(piece, '=');
      assert Split(piece, "=")[1..] == [];
      Join(Split(piece, "=")[1..], "=")
  }

  /** The name is the text before the first `=`, the value everything after it. */
  lemma PieceAtFirstEquals(piece: string, k: nat)
    requires k < |piece| && piece[k] == '=' && '=' !in piece[..k]
    ensures NameOf(piece) == piece[..k]
    ensures ValueOf(piece) == piece[k + 1..]
  {
  }

  /** Assigning a string to `__proto__` goes to the prototype setter, which
      ignores anything that is not an object: no own property appears. */
  const ProtoName: string := "__proto__"

  /** The object the loop fills: piece after piece, a later name overwriting an earlier one. */
  function CookieMapOf(pieces: seq<string>): (cookies: map<string, string>)
    ensures ProtoName !in cookies
  {
    if pieces == [] then map[]
    else
      var last := pieces[|pieces| - 1];
      if NameOf(last) == ProtoName then CookieMapOf(pieces[..|pieces| - 1])
      else CookieMapOf(pieces[..|pieces| - 1])[NameOf(last) := ValueOf(last)]
  }

  /** The client-side loop of `getCookies`. */
  method ClientCookies(documentCookie: string) returns (cookies: map<string, string>)
    ensures cookies == CookieMapOf(CookiePieces(documentCookie))
    ensures documentCookie == "" ==> cookies == map[]
  {
    cookies := map[];
    var documentCookies := if documentCookie != "" then Split(documentCookie, "; ") else [];
    for i := 0 to |documentCookies|
      invariant cookies == CookieMapOf(documentCookies[..i])
    {
      var cookieParts := Split(documentCookies[i], "=");
      var cookie := Join(cookieParts[1..], "=");
      var name := cookieParts[0];
      assert documentCookies[..i + 1][..i] == documentCookies[..i];
      if name != ProtoName {  // `_cookies.__proto__ = _cookie` sets no property
        cookies := cookies[name := cookie];
      }
    }
    assert documentCookies[..|documentCookies|] == documentCookies;
  }

  /** A name is present exactly when some piece carries it and it is not
      `__proto__`, and its value is that of the last such piece. */
  lemma {:induction false} LastPieceWins(pieces: seq<string>, name: string)
    ensures name in CookieMapOf(pieces) <==>
      name != ProtoName && exists i :: 0 <= i < |pieces| && NameOf(pieces[i]) == name
    ensures name in CookieMapOf(pieces) ==>
      exists i :: 0 <= i < |pieces| && NameOf(pieces[i]) == name && CookieMapOf(pieces)[name] == ValueOf(pieces[i])
        && forall j :: i < j < |pieces| ==> NameOf(pieces[j]) != name
    decreases |pieces|
  {
    if pieces != [] {
      var n := |pieces| - 1;
      var init := pieces[..n];
      LastPieceWins(init, name);
      if NameOf(pieces[n]) != name {
        forall i | 0 <= i < n ensures pieces[i] == init[i] { }
        if name in CookieMapOf(init) {
          var i :| 0 <= i < |init| && NameOf(init[i]) == name && CookieMapOf(init)[name] == ValueOf(init[i])
            && forall j :: i < j < |init| ==> NameOf(init[j]) != name;
          assert pieces[i] == init[i];
          assert forall j :: i < j < |pieces| ==> NameOf(pieces[j]) != name by {
            forall j | i < j < |pieces| ensures NameOf(pieces[j]) != name {
              if j < n { assert pieces[j] == init[j]; }
            }
          }
        } else if name != ProtoName {
          forall i | 0 <= i < |pieces| ensures NameOf(pieces[i]) != name {
            if i < n { assert pieces[i] == init[i]; }
          }
        }
      }
    }
  }

  /** One cookie as the client writes it into `document.cookie`. */
  datatype Cookie = Cookie(name: string, value: string)

  function PiecesOf(cookies: seq<Cookie>): (pieces: seq<string>)
    ensures |pieces| == |cookies|
    ensures forall i :: 0 <= i < |cookies| ==> pieces[i] == cookies[i].name + "=" + cookies[i].value
  {
    if cookies == [] then [] else [cookies[0].name + "=" + cookies[0].value] + PiecesOf(cookies[1..])
  }

  /** The `Cookie` header a browser sends: `name=value` joined by "; ". */
  function CookieLine(cookies: seq<Cookie>): string
  {
    Join(PiecesOf(cookies), "; ")
  }

  /** Later cookies of the same name win. */
  function ToMap(cookies: seq<Cookie>): map<string, string>
  {
    if cookies == [] then map[]
    else
      var last := cookies[|cookies| - 1];
      ToMap(cookies[..|cookies| - 1])[last.name := last.value]
  }

  /** Parsing a line of `name=value` pieces gives the cookies back, when names
      hold no `=` or `;` and values hold no `;`. Values may hold `=`; a cookie
      named `__proto__` is lost. */
  lemma ClientParseRoundTrip(cookies: seq<Cookie>)
    requires forall i :: 0 <= i < |cookies| ==> '=' !in cookies[i].name && ';' !in cookies[i].name && ';' !in cookies[i].value
    ensures CookieMapOf(CookiePieces(CookieLine(cookies))) == ToMap(cookies) - {ProtoName}
  {
    var pieces := PiecesOf(cookies);
    if cookies != [] {
      forall i | 0 <= i < |pieces| ensures ';' !in pieces[i] {
        assert pieces[i] == cookies[i].name + "=" + cookies[i].value;
      }
      SplitJoin(pieces, "; ");
      JoinKeepsFirst(pieces, "; ");
      assert |pieces[0]| > 0 by {
        assert pieces[0] == cookies[0].name + "=" + cookies[0].value;
      }
      assert CookieLine(cookies) != "";
    }
    PiecesMap(cookies);
  }

  lemma {:induction false} PiecesMap(cookies: seq<Cookie>)
    requires forall i :: 0 <= i < |cookies| ==> '=' !in cookies[i].name
    ensures CookieMapOf(PiecesOf(cookies)) == ToMap(cookies) - {ProtoName}
    decreases |cookies|
  {
    if cookies != [] {
      var n := |cookies| - 1;
      var pieces := PiecesOf(cookies);
      var c := cookies[n];
      assert PiecesOf(cookies[..n]) == pieces[..n];
      PiecesMap(cookies[..n]);
      assert pieces[n] == c.name + "=" + c.value;
      PieceOfCookie(c);
      assert ToMap(cookies) == ToMap(cookies[..n])[c.name := c.value];
      SetThenDropProto(ToMap(cookies[..n]), c.name, c.value);
    }
  }

  /** A piece written as `name=value` reads back as that name and value. */
  lemma PieceOfCookie(c: Cookie)
    requires '=' !in c.name
    ensures NameOf(c.name + "=" + c.value) == c.name
    ensures ValueOf(c.name + "=" + c.value) == c.value
  {
    var piece := c.name + "=" + c.value;
    assert piece[..|c.name|] == c.name && piece[|c.name|] == '=';
    PieceAtFirstEquals(piece, |c.name|);
    assert piece[|c.name| + 1..] == c.value;
  }

  lemma SetThenDropProto(m: map<string, string>, k: string, v: string)
    ensures m[k := v] - {ProtoName} == if k == ProtoName then m - {ProtoName} else (m - {ProtoName})[k := v]
  {
  }

  // Server side: the request's cookie map and its parsed `Cookie` header.

  /** `data === '' ? delete _cookies[key] : _cookies[key] = stringify(data)` */
  function UpdateCookieMap(m: map<string, Value>, key: string, data: Value): (r: map<string, Value>)
    ensures data == Str("") ==> key !in r
    ensures data != Str("") ==> key in r && r[key] == Stringify(data)
    ensures forall k :: k != key ==> (k in r <==> k in m) && (k in r ==> r[k] == m[k])
  {
    if data == Str("") then m - {key} else m[key := Stringify(data)]
  }

  /** A property of the object `parse` returned, in enumeration order. */
  datatype Entry = Entry(name: string, value: Value)

  function ToEntries(cookies: seq<Cookie>): (es: seq<Entry>)
    ensures |es| == |cookies|
    ensures forall i :: 0 <= i < |es| ==> es[i] == Entry(cookies[i].name, Str(cookies[i].value))
  {
    if cookies == [] then [] else [Entry(cookies[0].name, Str(cookies[0].value))] + ToEntries(cookies[1..])
  }

  predicate HasName(es: seq<Entry>, key: string)
  {
    es != [] && (es[0].name == key || HasName(es[1..], key))
  }

  /** No two properties share a name, as in any JavaScript object. */
  predicate DistinctNames(es: seq<Entry>)
  {
    es == [] || (!HasName(es[1..], es[0].name) && DistinctNames(es[1..]))
  }

  /** Assigning a property: an existing one keeps its place, a new one goes last. */
  function SetEntry(es: seq<Entry>, key: string, v: Value): (r: seq<Entry>)
    ensures Lookup(r, key) == Some(v)
    ensures |r| == (if HasName(es, key) then |es| else |es| + 1)
    ensures r[..|es|] == ReplaceEntry(es, key, v)
  {
    if !HasName(es, key) then
      LookupAppend(es, Entry(key, v), key);
      ReplaceAbsent(es, key, v);
      assert (es + [Entry(key, v)])[..|es|] == es;
      es + [Entry(key, v)]
    else
      LookupReplace(es, key, v, key);
      ReplaceEntry(es, key, v)
  }

  function ReplaceEntry(es: seq<Entry>, key: string, v: Value): (r: seq<Entry>)
    ensures |r| == |es|
    ensures forall i :: 0 <= i < |es| ==> r[i] == (if es[i].name == key then Entry(key, v) else es[i])
  {
    if es == [] then []
    else [if es[0].name == key then Entry(key, v) else es[0]] + ReplaceEntry(es[1..], key, v)
  }

  /** Deleting a property; the others keep their order. */
  function DeleteEntry(es: seq<Entry>, key: string): (r: seq<Entry>)
    ensures |r| <= |es|
    ensures |r| == |es| <==> !HasName(es, key)
    ensures !HasName(es, key) ==> r == es
    ensures DistinctNames(es) && HasName(es, key) ==> r == es[..NameIndex(es, key)] + es[NameIndex(es, key) + 1..]
  {
    if es == [] then []
    else
      var rest := DeleteEntry(es[1..], key);
      if es[0].name == key then
        assert es[..0] + es[1..] == es[1..];
        rest
      else if HasName(es[1..], key) then
        var k := NameIndex(es[1..], key);
        SlicesOfTail(es, k);
        [es[0]] + rest
      else [es[0]] + rest
  }

  lemma SlicesOfTail(es: seq<Entry>, k: nat)
    requires k + 1 < |es|
    ensures es[..k + 1] == [es[0]] + es[1..][..k]
    ensures es[k + 2..] == es[1..][k + 1..]
  {
  }

  /** The position of the first property with the name. */
  function NameIndex(es: seq<Entry>, key: string): (i: nat)
    requires HasName(es, key)
    ensures i < |es| && es[i].name == key
  {
    if es[0].name == key then 0 else 1 + NameIndex(es[1..], key)
  }

  /** The same update `setCookies` makes to `req.cookies`, on the parsed header. */
  function UpdateEntries(es: seq<Entry>, key: string, data: Value): (r: seq<Entry>)
    ensures data == Str("") ==> Lookup(r, key) == None
    ensures data != Str("") ==> Lookup(r, key) == Some(Stringify(data))
  {
    if data == Str("") then
      LookupDelete(es, key, key);
      DeleteEntry(es, key)
    else SetEntry(es, key, Stringify(data))
  }

  /** No name and no written value holds a space. */
  predicate NoSpaceIn(es: seq<Entry>)
  {
    forall i :: 0 <= i < |es| ==> ' ' !in es[i].name && ' ' !in ToJsString(es[i].value)
  }

  /** `Object.entries(_cookies)` written as `name=value;` pairs, one after another. */
  function HeaderFromEntries(es: seq<Entry>): (h: string)
    ensures es == [] <==> h == ""
    ensures es != [] ==> h[|h| - 1] == ';'
    ensures NoSpaceIn(es) ==> ' ' !in h
  {
    if es == [] then "" else es[0].name + "=" + ToJsString(es[0].value) + ";" + HeaderFromEntries(es[1..])
  }

  /** Looking a property up in the ordered entries. */
  function Lookup(es: seq<Entry>, key: string): (r: Option<Value>)
    ensures r.Some? <==> HasName(es, key)
  {
    if es == [] then None else if es[0].name == key then Some(es[0].value) else Lookup(es[1..], key)
  }

  function LookupMap(m: map<string, Value>, key: string): Option<Value>
  {
    if key in m then Some(m[key]) else None
  }

  lemma {:induction false} LookupReplace(es: seq<Entry>, key: string, v: Value, k: string)
    ensures Lookup(ReplaceEntry(es, key, v), k) == (if k == key && HasName(es, key) then Some(v) else Lookup(es, k))
    decreases |es|
  {
    if es != [] {
      var r := ReplaceEntry(es, key, v);
      assert r[1..] == ReplaceEntry(es[1..], key, v);
      LookupReplace(es[1..], key, v, k);
    }
  }

  lemma {:induction false} LookupAppend(es: seq<Entry>, e: Entry, k: string)
    requires !HasName(es, e.name)
    ensures Lookup(es + [e], k) == (if k == e.name then Some(e.value) else Lookup(es, k))
    decreases |es|
  {
    if es == [] {
      assert es + [e] == [e];
      assert [e][1..] == [];
    } else {
      assert (es + [e])[1..] == es[1..] + [e];
      LookupAppend(es[1..], e, k);
    }
  }

  lemma {:induction false} LookupDelete(es: seq<Entry>, key: string, k: string)
    ensures Lookup(DeleteEntry(es, key), k) == (if k == key then None else Lookup(es, k))
    decreases |es|
  {
    if es != [] {
      LookupDelete(es[1..], key, k);
      if es[0].name != key {
        assert ([es[0]] + DeleteEntry(es[1..], key))[1..] == DeleteEntry(es[1..], key);
      } else {
        assert [] + DeleteEntry(es[1..], key) == DeleteEntry(es[1..], key);
      }
    }
  }

  /** On the header, `setCookies` does to every name what it does to `req.cookies`. */
  lemma UpdateEntriesAgrees(es: seq<Entry>, m: map<string, Value>, key: string, data: Value, k: string)
    requires forall n :: LookupMap(m, n) == Lookup(es, n)
    ensures Lookup(UpdateEntries(es, key, data), k) == LookupMap(UpdateCookieMap(m, key, data), k)
  {
    if data == Str("") {
      LookupDelete(es, key, k);
    } else if HasName(es, key) {
      LookupReplace(es, key, Stringify(data), k);
    } else {
      LookupAppend(es, Entry(key, Stringify(data)), k);
    }
    assert LookupMap(m, k) == Lookup(es, k);
  }

  lemma {:induction false} HasNameReplace(es: seq<Entry>, key: string, v: Value, k: string)
    ensures HasName(ReplaceEntry(es, key, v), k) == HasName(es, k)
    decreases |es|
  {
    if es != [] {
      assert ReplaceEntry(es, key, v)[1..] == ReplaceEntry(es[1..], key, v);
      HasNameReplace(es[1..], key, v, k);
    }
  }

  lemma {:induction false} HasNameDelete(es: seq<Entry>, key: string, k: string)
    ensures HasName(DeleteEntry(es, key), k) == (k != key && HasName(es, k))
    decreases |es|
  {
    if es != [] {
      HasNameDelete(es[1..], key, k);
      if es[0].name != key {
        assert ([es[0]] + DeleteEntry(es[1..], key))[1..] == DeleteEntry(es[1..], key);
      } else {
        assert [] + DeleteEntry(es[1..], key) == DeleteEntry(es[1..], key);
      }
    }
  }

  /** The object `parse` returned, as a map: the first property of a name is the one found. */
  function EntriesMap(es: seq<Entry>): map<string, Value>
  {
    if es == [] then map[] else EntriesMap(es[1..])[es[0].name := es[0].value]
  }

  lemma {:induction false} LookupEntriesMap(es: seq<Entry>, k: string)
    ensures LookupMap(EntriesMap(es), k) == Lookup(es, k)
    decreases |es|
  {
    if es != [] {
      LookupEntriesMap(es[1..], k);
    }
  }

  lemma MapsAgree(m1: map<string, Value>, m2: map<string, Value>)
    requires forall k :: LookupMap(m1, k) == LookupMap(m2, k)
    ensures m1 == m2
  {
    forall k ensures (k in m1 <==> k in m2) && (k in m1 ==> m1[k] == m2[k]) {
      assert LookupMap(m1, k) == LookupMap(m2, k);
    }
  }

  /** Rebuilding the header from the updated entries carries the same cookies
      as the updated `req.cookies` would. */
  lemma UpdateEntriesMap(es: seq<Entry>, key: string, data: Value)
    ensures EntriesMap(UpdateEntries(es, key, data)) == UpdateCookieMap(EntriesMap(es), key, data)
  {
    var m := EntriesMap(es);
    forall n ensures LookupMap(m, n) == Lookup(es, n) {
      LookupEntriesMap(es, n);
    }
    forall k ensures LookupMap(EntriesMap(UpdateEntries(es, key, data)), k) == LookupMap(UpdateCookieMap(m, key, data), k) {
      LookupEntriesMap(UpdateEntries(es, key, data), k);
      UpdateEntriesAgrees(es, m, key, data, k);
    }
    MapsAgree(EntriesMap(UpdateEntries(es, key, data)), UpdateCookieMap(m, key, data));
  }

  /** Updating the parsed header never gives two properties the same name. */
  lemma {:induction false} UpdateKeepsNamesDistinct(es: seq<Entry>, key: string, data: Value)
    requires DistinctNames(es)
    ensures DistinctNames(UpdateEntries(es, key, data))
    decreases |es|
  {
    if es != [] {
      UpdateKeepsNamesDistinct(es[1..], key, data);
      var e := es[0];
      if data == Str("") {
        HasNameDelete(es[1..], key, e.name);
        if e.name != key {
          assert ([e] + DeleteEntry(es[1..], key))[1..] == DeleteEntry(es[1..], key);
        } else {
          assert [] + DeleteEntry(es[1..], key) == DeleteEntry(es[1..], key);
        }
      } else {
        var v := Stringify(data);
        if HasName(es, key) {
          HasNameReplace(es[1..], key, v, e.name);
          assert ReplaceEntry(es, key, v)[1..] == ReplaceEntry(es[1..], key, v);
          if !HasName(es[1..], key) {
            assert ReplaceEntry(es[1..], key, v) == es[1..] by {
              ReplaceAbsent(es[1..], key, v);
            }
          }
          assert SetEntry(es[1..], key, v) == ReplaceEntry(es[1..], key, v) || e.name == key;
        } else {
          LookupAppend(es[1..], Entry(key, v), e.name);
          assert (es + [Entry(key, v)])[1..] == es[1..] + [Entry(key, v)];
        }
      }
    }
  }

  lemma ReplaceAbsent(es: seq<Entry>, key: string, v: Value)
    requires !HasName(es, key)
    ensures ReplaceEntry(es, key, v) == es
  {
    if es != [] {
      ReplaceAbsent(es[1..], key, v);
    }
  }

  /** The rebuilt header ends every pair with `;` and puts no space between pairs. */
  lemma RebuiltHeaderText()
    ensures HeaderFromEntries([Entry("a", Str("1")), Entry("b", Str("2"))]) == "a=1;b=2;"
  {
    var es := [Entry("a", Str("1")), Entry("b", Str("2"))];
    assert es[1..][1..] == [];
    assert HeaderFromEntries(es[1..]) == "b=2;";
  }

  /** The client-side parser splits on "; ", so it reads any header written
      by `setCookies` whose names and values hold no space as one cookie: the
      first name, with the rest of the header as its value. */
  lemma RebuiltHeaderIsOnePiece(es: seq<Entry>)
    requires es != [] && '=' !in es[0].name && NoSpaceIn(es)
    ensures CookiePieces(HeaderFromEntries(es)) == [HeaderFromEntries(es)]
    ensures NameOf(HeaderFromEntries(es)) == es[0].name
    ensures ValueOf(HeaderFromEntries(es)) == HeaderFromEntries(es)[|es[0].name| + 1..]
    ensures CookieMapOf(CookiePieces(HeaderFromEntries(es))) ==
      if es[0].name == ProtoName then map[] else map[es[0].name := HeaderFromEntries(es)[|es[0].name| + 1..]]
  {
    var h := HeaderFromEntries(es);
    HeaderOpensWithName(es);
    PieceAtFirstEquals(h, |es[0].name|);
    SplitWithoutSecond(h, "; ");
    assert CookiePieces(h) == [h];
    SinglePieceMap(h);
  }

  lemma HeaderOpensWithName(es: seq<Entry>)
    requires es != []
    ensures |HeaderFromEntries(es)| > |es[0].name|
    ensures HeaderFromEntries(es)[..|es[0].name|] == es[0].name
    ensures HeaderFromEntries(es)[|es[0].name|] == '='
  {
    var rest := ToJsString(es[0].value) + ";" + HeaderFromEntries(es[1..]);
    assert HeaderFromEntries(es) == es[0].name + "=" + rest;
    NameThenEquals(es[0].name, rest);
  }

  lemma NameThenEquals(name: string, rest: string)
    ensures |name + "=" + rest| > |name|
    ensures (name + "=" + rest)[..|name|] == name
    ensures (name + "=" + rest)[|name|] == '='
  {
    assert (name + "=" + rest)[|name|] == "="[0];
  }

  lemma SinglePieceMap(piece: string)
    ensures CookieMapOf([piece]) == if NameOf(piece) == ProtoName then map[] else map[NameOf(piece) := ValueOf(piece)]
  {
    assert [piece][..0] == [];
  }

  /** For example, two cookies come back as one. */
  lemma RebuiltHeaderExample()
    ensures CookieMapOf(CookiePieces("a=1;b=2;")) == map["a" := "1;b=2;"]
  {
    var es := [Entry("a", Str("1")), Entry("b", Str("2"))];
    RebuiltHeaderText();
    RebuiltHeaderIsOnePiece(es);
    assert "a=1;b=2;"[2..] == "1;b=2;";
  }

  /** `checkCookies(key)` over the map `getCookies` returned. An own
      property named `hasOwnProperty` shadows the method with a cookie value,
      which cannot be called. */
  function CheckCookies<V>(key: string, cookies: map<string, V>): (present: Result<bool, JsError>)
    ensures present == Ok(true) <==> key != "" && key in cookies && "hasOwnProperty" !in cookies
    ensures present.Err? <==> key != "" && "hasOwnProperty" in cookies
    ensures present.Err? ==> present.error == TypeError
  {
    if key == "" then Ok(false)
    else if "hasOwnProperty" in cookies then Err(TypeError)
    else Ok(key in cookies)
  }

  /** After `setCookies` on the server a non-empty value is present, after `removeCookies` it is gone. */
  lemma CheckAfterUpdate(m: map<string, Value>, key: string, data: Value)
    requires key != ""
    requires "hasOwnProperty" !in m || key == "hasOwnProperty"
    ensures CheckCookies(key, UpdateCookieMap(m, key, data)) ==
      (if key == "hasOwnProperty" && data != Str("") then Err(TypeError) else Ok(data != Str("")))
  {
  }

  /** Once a cookie named `hasOwnProperty` is set, every later check throws. */
  lemma HasOwnPropertyCookieBreaksCheck(m: map<string, Value>, data: Value, key: string)
    requires data != Str("") && key != ""
    ensures CheckCookies(key, UpdateCookieMap(m, "hasOwnProperty", data)) == Err(TypeError)
  {
  }

  /** On the client, a name is present exactly when some piece of the header
      carries it and it is not `__proto__`; a piece named `hasOwnProperty`
      makes every check throw. */
  lemma CheckClientCookie(documentCookie: string, key: string)
    requires key != ""
    ensures (exists i :: 0 <= i < |CookiePieces(documentCookie)| && NameOf(CookiePieces(documentCookie)[i]) == "hasOwnProperty") ==>
      CheckCookies(key, CookieMapOf(CookiePieces(documentCookie))) == Err(TypeError)
    ensures !(exists i :: 0 <= i < |CookiePieces(documentCookie)| && NameOf(CookiePieces(documentCookie)[i]) == "hasOwnProperty") ==>
      CheckCookies(key, CookieMapOf(CookiePieces(documentCookie))) ==
        Ok(key != ProtoName && exists i :: 0 <= i < |CookiePieces(documentCookie)| && NameOf(CookiePieces(documentCookie)[i]) == key)
  {
    LastPieceWins(CookiePieces(documentCookie), key);
    LastPieceWins(CookiePieces(documentCookie), "hasOwnProperty");
  }

  /** A plain string stored on the server reads back unchanged. */
  lemma StringReadBack(m: map<string, Value>, key: string, s: string)
    requires s != "" && '%' !in s && s !in Keywords
    ensures GetCookie(key, UpdateCookieMap(m, key, Str(s))) == Ok(Str(s))
  {
  }

  /** `setCookies` stores `stringify(true)`, which is `true` itself, in
      `req.cookies`; `getCookie` then calls `decode(true)`, and `true` has no
      `replace` method. */
  lemma StoredBooleanReadBackThrows(m: map<string, Value>, key: string)
    ensures GetCookie(key, UpdateCookieMap(m, key, Bool(true))) == Err(TypeError)
  {
  }

  /** `false` is falsy, so `decode` passes it through and it reads back. */
  lemma StoredFalseReadsBack(m: map<string, Value>, key: string)
    ensures GetCookie(key, UpdateCookieMap(m, key, Bool(false))) == Ok(Bool(false))
  {
  }
}
