/** The identifiers that travel through Slack: action ids, modal callback ids and mark keys. */
module ActionIds {
  import opened Wrappers

  datatype Action = Approve | Reject

  function ActionName(a: Action): string {
    match a
    case Approve => "approve"
    case Reject => "reject"
  }

  predicate HasPrefix(s: string, prefix: string) {
    prefix <= s
  }

  // ----- Mark keys -----

  function MarkKey(id: string, a: Action): string {
    id + "_" + ActionName(a)
  }

  /** The key determines the profile and the action, whatever the profile's text. */
  lemma MarkKeyInjective(id: string, a: Action, id': string, a': Action)
    requires MarkKey(id, a) == MarkKey(id', a')
    ensures id == id' && a == a'
  {
    var k := MarkKey(id, a);
    assert k[|k| - 1] == ActionName(a)[|ActionName(a)| - 1];
    assert k[|k| - 1] == ActionName(a')[|ActionName(a')| - 1];
    assert k[|k| - 2] == ActionName(a)[|ActionName(a)| - 2];
    assert k[|k| - 2] == ActionName(a')[|ActionName(a')| - 2];
    assert a == a';
    assert id == k[..|k| - |ActionName(a)| - 1];
    assert id' == k[..|k| - |ActionName(a)| - 1];
  }

  lemma MarkKeyText(id: string)
    ensures MarkKey(id, Approve) == id + "_approve" && MarkKey(id, Reject) == id + "_reject"
  {
    assert "_" + "approve" == "_approve" && "_" + "reject" == "_reject";
  }

  /** `processedActions` under its mutex: the string-keyed map stands for a set of pairs. */
  class ActionMarks {
    var processed: map<string, bool>
    ghost var Marked: set<(string, Action)>

    ghost predicate Valid()
      reads this
    {
      && (forall key :: key in processed ==> processed[key])
      && (forall p :: p in Marked ==> MarkKey(p.0, p.1) in processed)
      && (forall id, a :: MarkKey(id, a) in processed ==> (id, a) in Marked)
    }

    constructor ()
      ensures Valid() && Marked == {}
    {
      processed, Marked := map[], {};
    }

    /** A missing key reads as false. */
    method IsProcessed(id: string, a: Action) returns (r: bool)
      requires Valid()
      ensures r <==> (id, a) in Marked
    {
      var key := MarkKey(id, a);
      r := key in processed && processed[key];
    }

    method MarkProcessed(id: string, a: Action)
      requires Valid()
      modifies this
      ensures Valid() && Marked == old(Marked) + {(id, a)}
    {
      processed := processed[MarkKey(id, a) := true];
      Marked := Marked + {(id, a)};
      forall id', a' | MarkKey(id', a') == MarkKey(id, a) ensures (id', a') == (id, a) {
        MarkKeyInjective(id', a', id, a);
      }
    }
  }

  // ----- Callback ids of the modals -----

  function CallbackId(a: Action, id: string): string {
    ActionName(a) + "_modal_" + id
  }

  function DecodeCallbackId(s: string): Option<(Action, string)> {
    if HasPrefix(s, "reject_modal_") then Some((Reject, s[|"reject_modal_"|..]))
    else if HasPrefix(s, "approve_modal_") then Some((Approve, s[|"approve_modal_"|..]))
    else None
  }

  lemma CallbackIdRoundTrip(a: Action, id: string)
    ensures DecodeCallbackId(CallbackId(a, id)) == Some((a, id))
  {
    var s := CallbackId(a, id);
    match a
    case Reject =>
      assert "reject" + "_modal_" == "reject_modal_";
      assert s == "reject_modal_" + id;
    case Approve =>
      assert "approve" + "_modal_" == "approve_modal_";
      assert s == "approve_modal_" + id;
      assert s[0] == 'a';
  }

  // ----- Action ids of the buttons -----

  predicate OccursAt(s: string, sub: string, i: nat) {
    i + |sub| <= |s| && s[i..i + |sub|] == sub
  }

  /** What follows the first occurrence of `sub` at or after position `i`. */
  function After(s: string, sub: string, i: nat): Option<string>
    requires i <= |s|
    decreases |s| - i
  {
    if OccursAt(s, sub, i) then Some(s[i + |sub|..])
    else if i == |s| then None
    else After(s, sub, i + 1)
  }

  /** Which profile a button stands for; `value` is the value field of the button. */
  function DecodeActionId(s: string, value: Option<string>): Option<string> {
    if HasPrefix(s, "approve_kyb_") || HasPrefix(s, "reject_kyb_") then After(s, "_kyb_", 0)
    else if s == "review_kyb" then value
    else if HasPrefix(s, "review_kyb_") then After(s, "_kyb_", 0)
    else if HasPrefix(s, "approve_") || HasPrefix(s, "reject_") then After(s, "_", 0)
    else None
  }

  lemma OccursStarts(s: string, sub: string, i: nat)
    requires sub != [] && i < |s|
    ensures OccursAt(s, sub, i) ==> s[i] == sub[0]
  {
    if OccursAt(s, sub, i) { assert s[i..i + |sub|][0] == s[i]; }
  }

  lemma PrefixStrip(p: string, q: string, id: string)
    ensures HasPrefix(p + id, p + q) <==> HasPrefix(id, q)
  {
    if HasPrefix(p + id, p + q) { assert id == (p + id)[|p|..] && q == (p + q)[|p|..]; }
  }

  /** `sub` starts with an underscore and the word before it has none. */
  lemma {:induction false} AfterWord(word: string, sub: string, id: string, i: nat)
    requires i <= |word| && sub != [] && sub[0] == '_' && '_' !in word
    ensures After(word + sub + id, sub, i) == Some(id)
    decreases |word| - i
  {
    var s := word + sub + id;
    if i < |word| {
      assert s[i] == word[i];
      OccursStarts(s, sub, i);
      AfterWord(word, sub, id, i + 1);
    } else {
      assert s[i..i + |sub|] == sub;
      assert s[i + |sub|..] == id;
    }
  }

  datatype Verb = ApproveVerb | RejectVerb | ReviewVerb

  function VerbName(v: Verb): string {
    match v
    case ApproveVerb => "approve"
    case RejectVerb => "reject"
    case ReviewVerb => "review"
  }

  /** Every `<verb>_kyb_<id>` decodes to its id, whatever the text of the id. */
  lemma ActionIdRoundTrip(v: Verb, id: string, value: Option<string>)
    ensures DecodeActionId(VerbName(v) + "_kyb_" + id, value) == Some(id)
  {
    var s := VerbName(v) + "_kyb_" + id;
    AfterWord(VerbName(v), "_kyb_", id, 0);
    match v
    case ApproveVerb =>
      assert "approve" + "_kyb_" == "approve_kyb_";
      assert s == "approve_kyb_" + id;
    case RejectVerb =>
      assert "reject" + "_kyb_" == "reject_kyb_";
      assert s == "reject_kyb_" + id;
    case ReviewVerb =>
      assert "review" + "_kyb_" == "review_kyb_";
      assert s == "review_kyb_" + id;
      assert s[0] == 'r' && s[2] == 'v';
      assert !HasPrefix(s, "approve_kyb_") && !HasPrefix(s, "reject_kyb_");
      assert |s| > |"review_kyb"|;
  }

  /** The legacy `approve_<id>` and `reject_<id>` decode to their id exactly if the id does not itself
      start with `kyb_`, which no UUID does. */
  lemma LegacyActionIdRoundTrip(a: Action, id: string, value: Option<string>)
    ensures DecodeActionId(ActionName(a) + "_" + id, value) == Some(id) <==> !HasPrefix(id, "kyb_")
  {
    var s := ActionName(a) + "_" + id;
    if HasPrefix(id, "kyb_") {
      var rest := id[4..];
      assert id == "kyb_" + rest;
      assert "_" + "kyb_" == "_kyb_";
      var v := if a == Approve then ApproveVerb else RejectVerb;
      assert s == VerbName(v) + "_kyb_" + rest;
      ActionIdRoundTrip(v, rest, value);
      assert |rest| != |id|;
    } else {
      AfterWord(ActionName(a), "_", id, 0);
      match a
      case Approve =>
        assert "approve" + "_" == "approve_" && "approve_" + "kyb_" == "approve_kyb_";
        PrefixStrip("approve_", "kyb_", id);
      case Reject =>
        assert "reject" + "_" == "reject_" && "reject_" + "kyb_" == "reject_kyb_";
        PrefixStrip("reject_", "kyb_", id);
        assert s[2] == 'j';
    }
  }

  /** The plain review button carries its profile in its value. */
  lemma ReviewButton(value: Option<string>)
    ensures DecodeActionId("review_kyb", value) == value
  {
    var s := "review_kyb";
    assert s[0] == 'r' && s[2] == 'v';
    assert |"review_kyb_"| == 11 && |s| == 10;
  }

  /** A text that is none of the forms is refused. */
  lemma UnknownButton(s: string, value: Option<string>)
    requires !HasPrefix(s, "approve_") && !HasPrefix(s, "reject_") && !HasPrefix(s, "review_kyb")
    ensures DecodeActionId(s, value) == None
  {
    assert "approve_" <= "approve_kyb_" && "reject_" <= "reject_kyb_" && "review_kyb" <= "review_kyb_";
    PrefixTrans("approve_", "approve_kyb_", s);
    PrefixTrans("reject_", "reject_kyb_", s);
    PrefixTrans("review_kyb", "review_kyb_", s);
  }

  lemma PrefixTrans(p: string, q: string, s: string)
    requires p <= q
    ensures HasPrefix(s, q) ==> HasPrefix(s, p)
  {
  }
}
