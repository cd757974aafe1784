/**
 * expandParameters: placeholder substitution in step (and scenario)
 * names. The name is scanned for matches of the regular expression
 * `<(.*?)>`; a match whose key is in the row is replaced by the row's
 * value and recorded as a parameter, any other match is left as it is.
 */
module Placeholders {
  import opened Wrappers

  /** A parameter attached to an item: the placeholder's key and the value put in its place. */
  datatype Parameter = Parameter(key: string, value: string)

  /** The substituted text and the parameters recorded, left to right. */
  datatype Expansion = Expansion(text: string, used: seq<Parameter>)

  /** One match of `<(.*?)>`: the index of its '<' and of its '>'. */
  datatype Token = Token(start: nat, close: nat)

  /** Characters the regular-expression `.` does not match (java.util.regex without DOTALL). */
  predicate IsLineTerminator(c: char) {
    c == '\n' || c == '\r' || c == '\U{85}' || c == '\U{2028}' || c == '\U{2029}'
  }

  /**
   * Where the lazy `.*?>` that starts at k ends: the first '>' at or
   * after k, unless a line terminator comes before it (then no match).
   */
  function CloseFrom(s: string, k: nat): (r: Option<nat>)
    requires k <= |s|
    decreases |s| - k
    ensures r.Some? ==> k <= r.value < |s| && s[r.value] == '>'
  {
    if k == |s| then None
    else if s[k] == '>' then Some(k)
    else if IsLineTerminator(s[k]) then None
    else CloseFrom(s, k + 1)
  }

  /** s[k..m] can be matched by the lazy `.*?` without reaching a '>' earlier. */
  predicate Plain(s: string, k: nat, m: nat)
    requires k <= m <= |s|
  {
    forall t :: k <= t < m ==> s[t] != '>' && !IsLineTerminator(s[t])
  }

  /**
   * CloseFrom is the lazy match: it ends at a '>' reached through plain
   * characters only, and when it finds none, every '>' ahead is behind
   * a line terminator (or there is none).
   */
  lemma {:induction false} CloseFromIsLazyMatch(s: string, k: nat)
    requires k <= |s|
    decreases |s| - k
    ensures CloseFrom(s, k).Some? ==> Plain(s, k, CloseFrom(s, k).value)
    ensures CloseFrom(s, k).None? ==> forall m :: k <= m < |s| && s[m] == '>' ==> !Plain(s, k, m)
  {
    if k < |s| && s[k] != '>' && !IsLineTerminator(s[k]) {
      CloseFromIsLazyMatch(s, k + 1);
    }
  }

  /** Conversely, a '>' reached through plain characters is where CloseFrom ends. */
  lemma {:induction false} CloseFromAt(s: string, k: nat, j: nat)
    requires k <= j < |s| && s[j] == '>' && Plain(s, k, j)
    decreases j - k
    ensures CloseFrom(s, k) == Some(j)
  {
    if k < j {
      CloseFromAt(s, k + 1, j);
    }
  }

  /** A match of `<(.*?)>` starts at p. */
  predicate TokenAt(s: string, p: nat)
    requires p < |s|
  {
    s[p] == '<' && CloseFrom(s, p + 1).Some?
  }

  /**
   * Matcher.find from position `from`: the leftmost match at or after
   * `from`, with the index of its closing '>'.
   */
  function FindToken(s: string, from: nat): (r: Option<Token>)
    requires from <= |s|
    decreases |s| - from
    ensures r.Some? ==> from <= r.value.start < r.value.close < |s|
  {
    if from == |s| then None
    else if TokenAt(s, from) then Some(Token(from, CloseFrom(s, from + 1).value))
    else FindToken(s, from + 1)
  }

  /** FindToken returns the leftmost match at or after `from`, or None when there is none. */
  lemma {:induction false} FindTokenIsLeftmost(s: string, from: nat)
    requires from <= |s|
    decreases |s| - from
    ensures FindToken(s, from).Some? ==> var t := FindToken(s, from).value;
      TokenAt(s, t.start) && CloseFrom(s, t.start + 1) == Some(t.close) && forall p :: from <= p < t.start ==> !TokenAt(s, p)
    ensures FindToken(s, from).None? ==> forall p :: from <= p < |s| ==> !TokenAt(s, p)
  {
    if from < |s| && !TokenAt(s, from) {
      FindTokenIsLeftmost(s, from + 1);
    }
  }

  /** A '<' with no '<' before it from `from` on, closed by a '>' through plain characters, is the match FindToken returns. */
  lemma {:induction false} FindTokenAt(s: string, from: nat, i: nat, j: nat)
    requires from <= i < j < |s| && s[i] == '<' && s[j] == '>' && Plain(s, i + 1, j)
    requires forall p :: from <= p < i ==> s[p] != '<'
    decreases i - from
    ensures FindToken(s, from) == Some(Token(i, j))
  {
    if from < i {
      FindTokenAt(s, from + 1, i, j);
    } else {
      CloseFromAt(s, i + 1, j);
    }
  }

  /** Without a '<' from `from` on there is no match. */
  lemma {:induction false} FindTokenNone(s: string, from: nat)
    requires from <= |s|
    requires forall p :: from <= p < |s| ==> s[p] != '<'
    decreases |s| - from
    ensures FindToken(s, from).None?
  {
    if from < |s| {
      FindTokenNone(s, from + 1);
    }
  }

  /** The key of the match t: the text between its '<' and '>'. */
  function KeyOf(s: string, t: Token): string
    requires t.start < t.close <= |s|
  {
    s[t.start + 1..t.close]
  }

  /** The substituted text of s from `from` on. */
  function ExpandText(s: string, row: map<string, string>, from: nat): string
    requires from <= |s|
    decreases |s| - from
  {
    match FindToken(s, from)
    case None => s[from..]
    case Some(t) =>
      var key := KeyOf(s, t);
      if key in row then s[from..t.start] + row[key] + ExpandText(s, row, t.close + 1)
      else s[from..t.close + 1] + ExpandText(s, row, t.close + 1)
  }

  /** The keys of all matches from `from` on, left to right. */
  function Keys(s: string, from: nat): seq<string>
    requires from <= |s|
    decreases |s| - from
  {
    match FindToken(s, from)
    case None => []
    case Some(t) => [KeyOf(s, t)] + Keys(s, t.close + 1)
  }

  /** One parameter per key the row has, in order, repeats included. */
  function KnownParameters(keys: seq<string>, row: map<string, string>): seq<Parameter> {
    if keys == [] then []
    else if keys[0] in row then [Parameter(keys[0], row[keys[0]])] + KnownParameters(keys[1..], row)
    else KnownParameters(keys[1..], row)
  }

  /** What expandParameters computes for the name s and the row. */
  function Expand(s: string, row: map<string, string>): Expansion {
    Expansion(ExpandText(s, row, 0), KnownParameters(Keys(s, 0), row))
  }

  /**
   * The text the loop of expandParameters ends with, from the state
   * (scan position, append position, buffer) it has reached.
   */
  function ScanText(s: string, row: map<string, string>, from: nat, ap: nat, buffer: string): string
    requires ap <= from <= |s|
    decreases |s| - from
  {
    match FindToken(s, from)
    case None => buffer + s[ap..]
    case Some(t) =>
      var key := KeyOf(s, t);
      if key in row then ScanText(s, row, t.close + 1, t.close + 1, buffer + s[ap..t.start] + row[key])
      else ScanText(s, row, t.close + 1, ap, buffer)
  }

  /** The parameter list the loop ends with, from the list it has built so far. */
  function ScanUsed(s: string, row: map<string, string>, from: nat, params: seq<Parameter>): seq<Parameter>
    requires from <= |s|
    decreases |s| - from
  {
    match FindToken(s, from)
    case None => params
    case Some(t) =>
      var key := KeyOf(s, t);
      if key in row then ScanUsed(s, row, t.close + 1, params + [Parameter(key, row[key])])
      else ScanUsed(s, row, t.close + 1, params)
  }

  lemma {:induction false} SliceSplit(s: string, a: nat, b: nat, c: nat)
    requires a <= b <= c <= |s|
    ensures s[a..c] == s[a..b] + s[b..c]
  {
  }

  /**
   * The regroupings of the buffer in one turn of the loop (a match
   * replaced, a match kept), stated apart from the proofs that use them.
   */
  lemma {:induction false} ReplaceStep(b: string, x: string, y: string, v: string, r: string)
    ensures b + (x + y) + v + [] + r == b + x + (y + v + r)
  {
  }

  lemma {:induction false} SkipStep(b: string, x: string, y: string, r: string)
    ensures b + (x + y) + r == b + x + (y + r)
  {
  }

  /**
   * One turn of the loop of expandParameters against one step of the
   * expansion: a match is replaced when its key is in the row, else kept.
   */
  lemma {:induction false} ScanStep(s: string, row: map<string, string>, from: nat, ap: nat, buffer: string, params: seq<Parameter>, t: Token)
    requires ap <= from <= |s| && FindToken(s, from) == Some(t)
    ensures var key, next := KeyOf(s, t), t.close + 1;
      && (key in row ==>
            && ScanText(s, row, from, ap, buffer) == ScanText(s, row, next, next, buffer + s[ap..t.start] + row[key])
            && ScanUsed(s, row, from, params) == ScanUsed(s, row, next, params + [Parameter(key, row[key])])
            && ExpandText(s, row, from) == s[from..t.start] + row[key] + ExpandText(s, row, next))
      && (key !in row ==>
            && ScanText(s, row, from, ap, buffer) == ScanText(s, row, next, ap, buffer)
            && ScanUsed(s, row, from, params) == ScanUsed(s, row, next, params)
            && ExpandText(s, row, from) == s[from..next] + ExpandText(s, row, next))
  {
  }

  /** The loop's text agrees with the compositional definition: the steps at no match, a known key and an unknown key. */
  lemma {:induction false} ScanTextNone(s: string, row: map<string, string>, from: nat, ap: nat, buffer: string)
    requires ap <= from <= |s| && FindToken(s, from).None?
    ensures ScanText(s, row, from, ap, buffer) == buffer + s[ap..from] + ExpandText(s, row, from)
  {
    SliceSplit(s, ap, from, |s|);
    assert s[from..] == s[from..|s|];
    assert s[ap..] == s[ap..|s|];
  }

  lemma {:induction false} ScanTextKnown(s: string, row: map<string, string>, from: nat, ap: nat, buffer: string, t: Token)
    requires ap <= from <= |s| && FindToken(s, from) == Some(t) && KeyOf(s, t) in row
    requires var next := t.close + 1;
      ScanText(s, row, next, next, buffer + s[ap..t.start] + row[KeyOf(s, t)])
      == buffer + s[ap..t.start] + row[KeyOf(s, t)] + s[next..next] + ExpandText(s, row, next)
    ensures ScanText(s, row, from, ap, buffer) == buffer + s[ap..from] + ExpandText(s, row, from)
  {
    var next := t.close + 1;
    ScanStep(s, row, from, ap, buffer, [], t);
    assert s[next..next] == [];
    SliceSplit(s, ap, from, t.start);
    ReplaceStep(buffer, s[ap..from], s[from..t.start], row[KeyOf(s, t)], ExpandText(s, row, next));
  }

  lemma {:induction false} ScanTextUnknown(s: string, row: map<string, string>, from: nat, ap: nat, buffer: string, t: Token)
    requires ap <= from <= |s| && FindToken(s, from) == Some(t) && KeyOf(s, t) !in row
    requires ScanText(s, row, t.close + 1, ap, buffer) == buffer + s[ap..t.close + 1] + ExpandText(s, row, t.close + 1)
    ensures ScanText(s, row, from, ap, buffer) == buffer + s[ap..from] + ExpandText(s, row, from)
  {
    var next := t.close + 1;
    ScanStep(s, row, from, ap, buffer, [], t);
    SliceSplit(s, ap, from, next);
    SkipStep(buffer, s[ap..from], s[from..next], ExpandText(s, row, next));
  }

  /** Whatever state the loop has reached, it ends with what it has built followed by the expansion of the rest. */
  lemma {:induction false} ScanTextAgrees(s: string, row: map<string, string>, from: nat, ap: nat, buffer: string)
    requires ap <= from <= |s|
    decreases |s| - from
    ensures ScanText(s, row, from, ap, buffer) == buffer + s[ap..from] + ExpandText(s, row, from)
  {
    match FindToken(s, from)
    case None =>
      ScanTextNone(s, row, from, ap, buffer);
    case Some(t) =>
      var key := KeyOf(s, t);
      var next := t.close + 1;
      if key in row {
        ScanTextAgrees(s, row, next, next, buffer + s[ap..t.start] + row[key]);
        ScanTextKnown(s, row, from, ap, buffer, t);
      } else {
        ScanTextAgrees(s, row, next, ap, buffer);
        ScanTextUnknown(s, row, from, ap, buffer, t);
      }
  }

  /** The loop appends exactly the parameters of the known-key matches still ahead. */
  lemma {:induction false} ScanUsedAgrees(s: string, row: map<string, string>, from: nat, params: seq<Parameter>)
    requires from <= |s|
    decreases |s| - from
    ensures ScanUsed(s, row, from, params) == params + KnownParameters(Keys(s, from), row)
  {
    match FindToken(s, from)
    case None =>
    case Some(t) =>
      var key := KeyOf(s, t);
      var keys := Keys(s, from);
      assert keys[0] == key && keys[1..] == Keys(s, t.close + 1);
      if key in row {
        ScanUsedAgrees(s, row, t.close + 1, params + [Parameter(key, row[key])]);
      } else {
        ScanUsedAgrees(s, row, t.close + 1, params);
      }
  }

  /**
   * expandParameters: the substituted name, and the caller's parameter
   * list with one entry appended per substituted match.
   */
  method ExpandParameters(stepName: string, parameters: map<string, string>, resources: seq<Parameter>)
    returns (text: string, resources': seq<Parameter>)
    ensures text == Expand(stepName, parameters).text
    ensures resources' == resources + Expand(stepName, parameters).used
  {
    var buffer := "";
    var appendPos: nat, from: nat := 0, 0;
    resources' := resources;
    var found := FindToken(stepName, 0);
    while found.Some?
      invariant appendPos <= from <= |stepName|
      invariant found == FindToken(stepName, from)
      invariant ScanText(stepName, parameters, from, appendPos, buffer) == ScanText(stepName, parameters, 0, 0, "")
      invariant ScanUsed(stepName, parameters, from, resources') == ScanUsed(stepName, parameters, 0, resources)
      decreases |stepName| - from
    {
      var i, j := found.value.start, found.value.close;
      var key := stepName[i + 1..j];
      if key in parameters {
        var value := parameters[key];
        buffer := buffer + stepName[appendPos..i] + value;
        appendPos := j + 1;
        resources' := resources' + [Parameter(key, value)];
      }
      from := j + 1;
      found := FindToken(stepName, from);
    }
    text := buffer + stepName[appendPos..];
    ScanTextAgrees(stepName, parameters, 0, 0, "");
    ScanUsedAgrees(stepName, parameters, 0, resources);
    assert "" + stepName[0..0] == [];
  }

  /** A match whose key the row lacks; such matches stay in the text. */
  predicate Unmatched(s: string, row: map<string, string>, p: nat)
    requires p < |s|
  {
    TokenAt(s, p) ==> s[p + 1..CloseFrom(s, p + 1).value] !in row
  }

  /**
   * When no match in s has its key in the row, expandParameters returns
   * s unchanged and adds no parameter.
   */
  lemma {:induction false} ExpandWithoutKnownKeys(s: string, row: map<string, string>, from: nat)
    requires from <= |s|
    requires forall p :: from <= p < |s| ==> Unmatched(s, row, p)
    ensures ExpandText(s, row, from) == s[from..]
    ensures KnownParameters(Keys(s, from), row) == []
    decreases |s| - from
  {
    match FindToken(s, from)
    case None =>
    case Some(t) =>
      FindTokenIsLeftmost(s, from);
      assert Unmatched(s, row, t.start);
      ExpandWithoutKnownKeys(s, row, t.close + 1);
      UnknownCopied(s, row, from, t);
      UnknownSkipped(s, row, from, t);
  }

  /** A match with an unknown key adds no parameter. */
  lemma {:induction false} UnknownSkipped(s: string, row: map<string, string>, from: nat, t: Token)
    requires from <= |s| && FindToken(s, from) == Some(t) && KeyOf(s, t) !in row
    ensures KnownParameters(Keys(s, from), row) == KnownParameters(Keys(s, t.close + 1), row)
  {
    var keys := Keys(s, from);
    assert keys[0] == KeyOf(s, t) && keys[1..] == Keys(s, t.close + 1);
  }

  /** A match with an unknown key is copied when the rest is. */
  lemma {:induction false} UnknownCopied(s: string, row: map<string, string>, from: nat, t: Token)
    requires from <= |s| && FindToken(s, from) == Some(t) && KeyOf(s, t) !in row
    requires ExpandText(s, row, t.close + 1) == s[t.close + 1..]
    ensures ExpandText(s, row, from) == s[from..]
  {
    assert ExpandText(s, row, from) == s[from..t.close + 1] + ExpandText(s, row, t.close + 1);
    SliceSplit(s, from, t.close + 1, |s|);
    assert s[t.close + 1..] == s[t.close + 1..|s|];
    assert s[from..] == s[from..|s|];
  }

  /** With an empty row nothing is substituted. */
  lemma {:induction false} ExpandEmptyRow(s: string)
    ensures Expand(s, map[]) == Expansion(s, [])
  {
    ExpandWithoutKnownKeys(s, map[], 0);
  }

  /** Every recorded parameter carries a key of the row and that key's value. */
  lemma {:induction false} KnownParametersFromRow(keys: seq<string>, row: map<string, string>)
    ensures var ps := KnownParameters(keys, row);
      |ps| <= |keys| && forall k :: 0 <= k < |ps| ==> ps[k].key in row && ps[k].value == row[ps[k].key]
  {
    if keys != [] {
      KnownParametersFromRow(keys[1..], row);
    }
  }
}
