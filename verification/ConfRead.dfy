/** What a reader of the configuration store gets after an assignment, and what a text prints as. */
module ConfRead {
  import opened Options
  import opened Decimals
  import opened ConfLang

  // ---------- keys ----------

  predicate Capital(c: char) { 'A' <= c <= 'Z' }

  /** The same character, or a letter in its two cases. */
  predicate SameLetter(c: char, d: char) {
    || c == d
    || (Capital(c) && d as int == c as int + 32)
    || (Capital(d) && c as int == d as int + 32)
  }

  predicate SameKey(a: string, b: string) {
    |a| == |b| && forall i :: 0 <= i < |a| ==> SameLetter(a[i], b[i])
  }

  lemma LowerCharExact(c: char, d: char)
    ensures LowerChar(c) == LowerChar(d) <==> SameLetter(c, d)
  {
  }

  /** Keys are the same entry exactly when they differ in letter case only. */
  lemma LowerExact(a: string, b: string)
    ensures Lower(a) == Lower(b) <==> SameKey(a, b)
  {
    hide LowerChar, SameLetter;
    forall i | 0 <= i < |a| && i < |b|
      ensures LowerChar(a[i]) == LowerChar(b[i]) <==> SameLetter(a[i], b[i])
    {
      LowerCharExact(a[i], b[i]);
    }
    if Lower(a) == Lower(b) {
      assert |Lower(a)| == |a| && |Lower(b)| == |b|;
      assert forall i :: 0 <= i < |a| ==> Lower(a)[i] == LowerChar(a[i]) && Lower(b)[i] == LowerChar(b[i]);
    }
  }

  // ---------- numbers ----------

  lemma {:induction false} AtoiDecimal(n: nat)
    ensures Atoi(Decimal(n)) == n
  {
    var d := Decimal(n);
    if n < 10 {
      assert d[..0] == "";
      AtoiLast("", n);
    } else {
      AtoiDecimal(n / 10);
      AtoiLast(Decimal(n / 10), n % 10);
    }
  }

  lemma AtoiLast(s: string, d: nat)
    requires d < 10
    ensures Atoi(s + [DigitChar(d)]) == Atoi(s) * 10 + d
  {
    assert (s + [DigitChar(d)])[..|s|] == s;
  }

  function Spelt(ns: seq<nat>): seq<string> { seq(|ns|, i requires 0 <= i < |ns| => Decimal(ns[i])) }

  // ---------- texts ----------

  /** A text in quotes reads back without them, up to 4094 characters. */
  lemma StripExact(t: string)
    ensures Strip("\"" + t + "\"") == if |t| <= 4094 then t else t[..4094]
  {
    var q := "\"" + t + "\"";
    if |t| <= 4094 {
      assert q[1..][..|t|] == t;
    } else {
      assert q[1..4096][..4094] == t[..4094];
    }
  }

  /** What is stored for a text: the text itself, without quotes if it comes in quotes, and nothing
      for empty quotes. */
  lemma StoredExact(t: string)
    ensures t == "" || t[0] != '"' ==> StoredText(Some(t)) == Some(t)
    ensures 0 < |t| <= 4094 ==> StoredText(Some("\"" + t + "\"")) == Some(t)
    ensures StoredText(Some("\"\"")) == None && StoredText(None) == None
  {
    StripExact(t);
    StripExact("");
    assert "\"" + "" + "\"" == "\"\"";
  }

  // ---------- what is read after an assignment ----------

  /** sysconf_str, sysconf_get_int_list and sysconf_get_str_list */
  function GetStr(st: Store, key: string): Option<string> {
    if Lower(key) in st then st[Lower(key)].text else None
  }

  function GetInts(st: Store, key: string): Option<seq<int>> {
    if Lower(key) in st then st[Lower(key)].list else None
  }

  function GetStrs(st: Store, key: string): Option<seq<Option<string>>> {
    if Lower(key) in st then st[Lower(key)].slist else None
  }

  /** Under `key` one now reads the given number, text and lists; under every other key, what one
      read before. */
  predicate Reads(before: Store, after: Store, id: string, i: int, text: Option<string>, list: Option<seq<int>>,
                  slist: Option<seq<Option<string>>>, key: string)
  {
    if SameKey(key, id)
    then GetInt(after, key) == i && GetStr(after, key) == text
         && GetInts(after, key) == list && GetStrs(after, key) == slist
    else GetInt(after, key) == GetInt(before, key) && GetStr(after, key) == GetStr(before, key)
         && GetInts(after, key) == GetInts(before, key) && GetStrs(after, key) == GetStrs(before, key)
  }

  lemma SetReads(st: Store, id: string, v: Value, key: string)
    ensures Reads(st, Set(st, id, v), id, v.ivalue, v.text, v.list, v.slist, key)
  {
    hide Lower, SameKey;
    LowerExact(key, id);
  }

  /** `id = on;` and `id = off;` */
  lemma FlagReads(w: World, id: string, coded: bool, key: string)
    requires !w.ended
    ensures Reads(w.st, EvalSimple(w, SetOn(id), coded).st, id, 1, None, None, None, key)
    ensures Reads(w.st, EvalSimple(w, SetOff(id), coded).st, id, 0, None, None, None, key)
  {
    hide Reads, Set;
    SetReads(w.st, id, Value(1, None, None, None), key);
    SetReads(w.st, id, Value(0, None, None, None), key);
  }

  /** `id = n;` with the decimal spelling of n */
  lemma NumberReads(w: World, id: string, n: nat, coded: bool, key: string)
    requires !w.ended
    ensures Reads(w.st, EvalSimple(w, SetInt(id, Decimal(n)), coded).st, id, n, None, None, None, key)
  {
    hide Reads, Set, Atoi, Decimal;
    AtoiDecimal(n);
    SetReads(w.st, id, Value(n, None, None, None), key);
  }

  /** `id = "t";`, whose quotes the lexer takes off, and `id = "";` */
  lemma TextReads(w: World, id: string, t: string, coded: bool, key: string)
    requires !w.ended && t != "" && t[0] != '"'
    ensures Reads(w.st, EvalSimple(w, SetStr(id, Some(t)), coded).st, id, -1, Some(t), None, None, key)
    ensures Reads(w.st, EvalSimple(w, SetStr(id, None), coded).st, id, -1, None, None, None, key)
  {
    StoredExact(t);
    hide Reads, Set, StoredText;
    SetReads(w.st, id, Value(-1, Some(t), None, None), key);
    SetReads(w.st, id, Value(-1, None, None, None), key);
  }

  /** The last 64 elements. */
  function Last64<T>(xs: seq<T>): seq<T> { if |xs| <= 64 then xs else xs[|xs| - 64..] }

  /** `id = [n, ...];` and `id = ["t", ...];` keep the last 64 elements. */
  lemma ListReads(w: World, id: string, ns: seq<nat>, ss: seq<Option<string>>, coded: bool, key: string)
    requires !w.ended
    ensures Reads(w.st, EvalSimple(w, SetInts(id, Spelt(ns)), coded).st,
                  id, |Last64(ns)|, None, Some(Last64(ns)), None, key)
    ensures Reads(w.st, EvalSimple(w, SetStrs(id, ss), coded).st,
                  id, |Last64(ss)|, None, None, Some(Last64(ss)), key)
  {
    AtoisSpelt(ns);
    assert Kept(ss) == Last64(ss);
    hide Reads, Set, Atois, Spelt, Kept, Last64;
    SetReads(w.st, id, Value(|Last64(ns)|, None, Some(Last64(ns)), None), key);
    SetReads(w.st, id, Value(|Last64(ss)|, None, None, Some(Last64(ss))), key);
  }

  lemma AtoisSpelt(ns: seq<nat>)
    ensures Atois(Kept(Spelt(ns))) == Last64(ns) && |Kept(Spelt(ns))| == |Last64(ns)|
  {
    hide Atoi, Decimal;
    var kept, last := Kept(Spelt(ns)), Last64(ns);
    assert |kept| == |last|;
    forall i | 0 <= i < |last| ensures Atoi(kept[i]) == last[i] {
      AtoiDecimal(last[i]);
    }
  }

  // ---------- conditions ----------

  /** An if runs its branch after its variable was set on or to a positive number, and does not run
      it after off, 0 or a text, or when the variable is not set. */
  lemma IfReads(w: World, id: string, n: nat, t: string, thn: seq<Simple>)
    requires !w.ended && t != "" && t[0] != '"'
    ensures var on := EvalSimple(w, SetOn(id), false); Eval(on, If(id, thn)) == EvalBody(on, thn, false)
    ensures var off := EvalSimple(w, SetOff(id), false); Eval(off, If(id, thn)) == off
    ensures var num := EvalSimple(w, SetInt(id, Decimal(n)), false);
            Eval(num, If(id, thn)) == if n == 0 then num else EvalBody(num, thn, false)
    ensures var text := EvalSimple(w, SetStr(id, Some(t)), false); Eval(text, If(id, thn)) == text
    ensures Lower(id) !in w.st ==> Eval(w, If(id, thn)) == w
  {
    FlagReads(w, id, false, id);
    NumberReads(w, id, n, false, id);
    TextReads(w, id, t, false, id);
    hide EvalSimple, EvalBody, Lower, Decimal;
  }

  // ---------- printing ----------

  predicate NoBackslash(s: string) { forall i :: 0 <= i < |s| ==> s[i] != '\\' }

  /** A text without a backslash prints as it is. */
  lemma {:induction false} PlainText(a: string, b: string)
    requires NoBackslash(a)
    ensures Unescape(a + b, false) == a + Unescape(b, false)
    decreases |a|
  {
    if a == "" {
      assert a + b == b;
    } else {
      assert (a + b)[1..] == a[1..] + b;
      PlainText(a[1..], b);
    }
  }

  /** A backslash and the character after it. */
  lemma EscapedText(a: string, c: char, b: string)
    requires NoBackslash(a)
    ensures c == 'n' ==> Unescape(a + ['\\', c] + b, false) == a + "\n" + Unescape(b, false)
    ensures c == 'r' ==> Unescape(a + ['\\', c] + b, false) == a + "\r" + Unescape(b, false)
    ensures c == '\\' ==> Unescape(a + ['\\', c] + b, false) == a + "\\" + Unescape(b, false)
    ensures c != 'n' && c != 'r' && c != '\\' ==> Unescape(a + ['\\', c] + b, false) == a + Unescape(b, false)
    ensures Unescape(a + ['\\'], false) == a
  {
    var s := ['\\', c] + b;
    assert a + ['\\', c] + b == a + s;
    PlainText(a, s);
    PlainText(a, ['\\']);
    assert s[1..] == [c] + b && s[1..][1..] == b;
    assert Unescape(s, false) == Unescape(s[1..], true);
    assert ['\\'][1..] == "";
  }
}
