/** Correlation subjects of FSPIOP answers: packages/shared/fspiop/component/fspiop-pub-sub-subjects.ts. */
module PubSubSubjects {
  import opened Results
  import opened Text

  const PREFIX := "pivotal.fspiop.response."

  const ANY_PAYEE := "_any_"

  // ---- builders -----------------------------------------------------------------------------------------

  function PayeeToken(payee: Option<string>): string {
    if payee.None? then ANY_PAYEE else payee.value
  }

  function PartiesSubject(
    prefix: string, payer: string, payee: Option<string>, idType: string, id: string, subId: Option<string>): string
  {
    var base := prefix + payer + ":" + PayeeToken(payee) + ":" + idType + ":" + id;
    if subId.Some? && subId.value != "" then base + ":" + subId.value else base
  }

  function PartiesForSuccess(
    payer: string, payee: Option<string>, idType: string, id: string, subId: Option<string>): string
  {
    PartiesSubject(SUCCESS_PREFIX, payer, payee, idType, id, subId)
  }

  function PartiesForError(
    payer: string, payeeOrHub: Option<string>, idType: string, id: string, subId: Option<string>): string
  {
    PartiesSubject(ERROR_PREFIX, payer, payeeOrHub, idType, id, subId)
  }

  const SUCCESS_PREFIX := PREFIX + "parties:"

  const ERROR_PREFIX := PREFIX + "parties-error:"

  function QuotesForSuccess(payer: string, quoteId: string): string {
    PREFIX + "quotes:" + payer + ":" + quoteId
  }

  function QuotesForError(payer: string, quoteId: string): string {
    PREFIX + "quotes-error:" + payer + ":" + quoteId
  }

  function TransfersForSuccess(payer: string, transferId: string): string {
    PREFIX + "transfers:" + payer + ":" + transferId
  }

  function TransfersForError(payer: string, transferId: string): string {
    PREFIX + "transfers-error:" + payer + ":" + transferId
  }

  // ---- the rewrite -----------------------------------------------------------------------------------------

  function PrefixOf(subject: string): Option<string> {
    if StartsWith(subject, SUCCESS_PREFIX) then Some(SUCCESS_PREFIX)
    else if StartsWith(subject, ERROR_PREFIX) then Some(ERROR_PREFIX)
    else None
  }

  // The text with its second token replaced by the wildcard.
  function Rewrite(text: string): string
    requires |Split(text, ':')| >= 2
  {
    Join(Split(text, ':')[1 := ANY_PAYEE], ':')
  }

  function AnyPayee(subject: string): Option<string> {
    match PrefixOf(subject)
    case None => None
    case Some(prefix) =>
      var text := subject[|prefix|..];
      if |Split(text, ':')| < 4 then None else Some(prefix + Rewrite(text))
  }

  /** `toAnyPayeeSubject` */
  method ToAnyPayeeSubject(subject: string) returns (r: Option<string>)
    ensures r == AnyPayee(subject)
  {
    var prefix: string;
    if StartsWith(subject, SUCCESS_PREFIX) {
      prefix := SUCCESS_PREFIX;
    } else if StartsWith(subject, ERROR_PREFIX) {
      prefix := ERROR_PREFIX;
    } else {
      return None;
    }
    var tokens := Split(subject[|prefix|..], ':');
    if |tokens| < 4 {
      return None;
    }
    tokens := tokens[1 := ANY_PAYEE];
    return Some(prefix + Join(tokens, ':'));
  }

  // ---- subjects as token lists ---------------------------------------------------------------------------------

  // The tokens of party id type, id and sub id.
  function PartyTokens(idType: string, id: string, subId: Option<string>): (r: seq<string>)
    ensures |r| >= 2
  {
    Split(idType, ':') + Split(id, ':')
    + (if subId.Some? && subId.value != "" then Split(subId.value, ':') else [])
  }

  function PartyText(idType: string, id: string, subId: Option<string>): string {
    idType + ":" + id + (if subId.Some? && subId.value != "" then ":" + subId.value else "")
  }

  lemma PartyTextTokens(idType: string, id: string, subId: Option<string>)
    ensures Split(PartyText(idType, id, subId), ':') == PartyTokens(idType, id, subId)
  {
    hide Split;
    SplitSeparator(idType, ':', id);
    assert idType + ":" + id == idType + [':'] + id;
    if subId.Some? && subId.value != "" {
      SplitSeparator(idType + ":" + id, ':', subId.value);
      assert PartyText(idType, id, subId) == idType + ":" + id + [':'] + subId.value;
    } else {
      assert PartyText(idType, id, subId) == idType + ":" + id;
    }
  }

  lemma SubjectText(
    prefix: string, payer: string, payee: Option<string>, idType: string, id: string, subId: Option<string>)
    ensures PartiesSubject(prefix, payer, payee, idType, id, subId)
         == prefix + (payer + ":" + (PayeeToken(payee) + ":" + PartyText(idType, id, subId)))
  {
    hide PayeeToken;
    var lead := prefix + payer + ":" + PayeeToken(payee) + ":";
    var tail := if subId.Some? && subId.value != "" then ":" + subId.value else "";
    assert lead == prefix + (payer + ":" + (PayeeToken(payee) + ":"));
    assert PartiesSubject(prefix, payer, payee, idType, id, subId) == lead + idType + ":" + id + tail;
    assert lead + idType + ":" + id + tail == lead + (idType + ":" + id + tail);
  }

  lemma SubjectTokens(payer: string, payee: string, idType: string, id: string, subId: Option<string>)
    ensures Split(payer + ":" + (payee + ":" + PartyText(idType, id, subId)), ':')
         == Split(payer, ':') + (Split(payee, ':') + PartyTokens(idType, id, subId))
  {
    hide Split, PartyText, PartyTokens;
    var party := PartyText(idType, id, subId);
    PartyTextTokens(idType, id, subId);
    SplitSeparator(payee, ':', party);
    SplitSeparator(payer, ':', payee + ":" + party);
    assert payee + ":" + party == payee + [':'] + party;
    assert payer + ":" + (payee + ":" + party) == payer + [':'] + (payee + ":" + party);
  }

  lemma JoinInjective(a: seq<string>, b: seq<string>)
    requires a != [] && b != []
    requires (forall i | 0 <= i < |a| :: ':' !in a[i]) && (forall i | 0 <= i < |b| :: ':' !in b[i])
    ensures Join(a, ':') == Join(b, ':') <==> a == b
  {
    hide Join, Split;
    SplitJoin(a, ':');
    SplitJoin(b, ':');
  }

  lemma PlainAny()
    ensures ':' !in ANY_PAYEE && Split(ANY_PAYEE, ':') == [ANY_PAYEE]
  {
    SplitPlain(ANY_PAYEE, ':');
  }

  // Replacing the second token yields the any-payee tokens exactly in these cases.
  lemma SecondToken(p: seq<string>, y: seq<string>, rest: seq<string>)
    requires p != [] && y != []
    ensures (p + (y + rest))[1 := ANY_PAYEE] == p + ([ANY_PAYEE] + rest) <==>
              |y| == 1 && (|p| == 1 || (p[1] == ANY_PAYEE && y == [ANY_PAYEE]))
  {
    hide ANY_PAYEE;
    var before := p + (y + rest);
    var any := p + ([ANY_PAYEE] + rest);
    var after := before[1 := ANY_PAYEE];
    if |y| == 1 {
      assert after[|p|] == if |p| == 1 then ANY_PAYEE else y[0];
      assert any[|p|] == ANY_PAYEE;
      if |p| > 1 {
        assert after[1] == ANY_PAYEE && any[1] == p[1];
        if p[1] == ANY_PAYEE && y == [ANY_PAYEE] {
          assert after == any;
        }
      } else {
        assert after == any;
      }
    } else {
      assert |after| != |any|;
    }
  }

  lemma SingleToken(s: string)
    ensures |Split(s, ':')| == 1 <==> ':' !in s
    ensures |Split(s, ':')| == 1 ==> Split(s, ':') == [s]
  {
    hide Split, Join;
    JoinSplit(s, ':');
    SplitPiecesPlain(s, ':');
    if ':' !in s { SplitPlain(s, ':'); }
    if |Split(s, ':')| == 1 { JoinOne(Split(s, ':')); }
  }

  lemma JoinOne(parts: seq<string>)
    requires |parts| == 1
    ensures Join(parts, ':') == parts[0]
  {}

  /** The payee is one token and so is the payer, or the payer's second token and the payee both are the wildcard. */
  predicate RewritesToAny(payer: string, payee: string) {
    && ':' !in payee
    && (':' !in payer || (|Split(payer, ':')| > 1 && Split(payer, ':')[1] == ANY_PAYEE && payee == ANY_PAYEE))
  }

  // On the text after the prefix.
  lemma RewriteText(payer: string, payee: string, idType: string, id: string, subId: Option<string>)
    ensures var party := PartyText(idType, id, subId);
      var tokens := Split(payer + ":" + (payee + ":" + party), ':');
      && |tokens| >= 4
      && (Rewrite(payer + ":" + (payee + ":" + party)) == payer + ":" + (ANY_PAYEE + ":" + party)
          <==> RewritesToAny(payer, payee))
  {
    hide Split, Join, PartyText, PartyTokens, ANY_PAYEE;
    var text := payer + ":" + (payee + ":" + PartyText(idType, id, subId));
    var any := payer + ":" + (ANY_PAYEE + ":" + PartyText(idType, id, subId));
    PlainAny();
    SubjectTokens(payer, payee, idType, id, subId);
    SubjectTokens(payer, ANY_PAYEE, idType, id, subId);
    SplitPiecesPlain(text, ':');
    SplitPiecesPlain(any, ':');
    JoinSplit(any, ':');
    JoinInjective(Split(text, ':')[1 := ANY_PAYEE], Split(any, ':'));
    SecondToken(Split(payer, ':'), Split(payee, ':'), PartyTokens(idType, id, subId));
    SingleToken(payer);
    SingleToken(payee);
  }

  lemma PrefixOfParties(text: string)
    ensures PrefixOf(SUCCESS_PREFIX + text) == Some(SUCCESS_PREFIX)
    ensures PrefixOf(ERROR_PREFIX + text) == Some(ERROR_PREFIX)
  {
    assert (ERROR_PREFIX + text)[|PREFIX| + 7] == '-';
    assert SUCCESS_PREFIX[|PREFIX| + 7] == ':';
  }

  lemma PrefixesDiffer(x: string, y: string)
    ensures SUCCESS_PREFIX + x != ERROR_PREFIX + y
  {
    PrefixOfParties(x);
    PrefixOfParties(y);
    assert |SUCCESS_PREFIX| != |ERROR_PREFIX|;
  }

  lemma AnyPayeeOfText(prefix: string, text: string)
    requires prefix == SUCCESS_PREFIX || prefix == ERROR_PREFIX
    requires |Split(text, ':')| >= 4
    ensures AnyPayee(prefix + text) == Some(prefix + Rewrite(text))
  {
    hide Split, Rewrite, PrefixOf;
    PrefixOfParties(text);
    assert (prefix + text)[|prefix|..] == text;
  }

  lemma RewriteAgreesUnder(
    prefix: string, payer: string, payee: Option<string>, idType: string, id: string, subId: Option<string>)
    requires prefix == SUCCESS_PREFIX || prefix == ERROR_PREFIX
    ensures AnyPayee(PartiesSubject(prefix, payer, payee, idType, id, subId))
         == Some(PartiesSubject(prefix, payer, None, idType, id, subId))
       <==> RewritesToAny(payer, PayeeToken(payee))
  {
    hide Split, Rewrite, AnyPayee, PartyText, PartiesSubject, RewritesToAny, SUCCESS_PREFIX, ERROR_PREFIX, ANY_PAYEE;
    var party := PartyText(idType, id, subId);
    var text := payer + ":" + (PayeeToken(payee) + ":" + party);
    SubjectText(prefix, payer, payee, idType, id, subId);
    SubjectText(prefix, payer, None, idType, id, subId);
    RewriteText(payer, PayeeToken(payee), idType, id, subId);
    AnyPayeeOfText(prefix, text);
    CancelPrefix(prefix, Rewrite(text), payer + ":" + (ANY_PAYEE + ":" + party));
  }

  /**
   Rewriting a parties subject gives the subject built without a payee, exactly under `RewritesToAny`; in
   particular whenever payer and payee contain no colon, whatever the party's ids contain.
   */
  lemma RewriteAgrees(payer: string, payee: Option<string>, idType: string, id: string, subId: Option<string>)
    ensures AnyPayee(PartiesForSuccess(payer, payee, idType, id, subId))
         == Some(PartiesForSuccess(payer, None, idType, id, subId))
       <==> RewritesToAny(payer, PayeeToken(payee))
    ensures AnyPayee(PartiesForError(payer, payee, idType, id, subId))
         == Some(PartiesForError(payer, None, idType, id, subId))
       <==> RewritesToAny(payer, PayeeToken(payee))
  {
    hide AnyPayee, PartiesSubject, RewritesToAny, PayeeToken;
    RewriteAgreesUnder(SUCCESS_PREFIX, payer, payee, idType, id, subId);
    RewriteAgreesUnder(ERROR_PREFIX, payer, payee, idType, id, subId);
  }

  /** Quote and transfer subjects are never rewritten. */
  lemma OthersAreNotRewritten(payer: string, id: string)
    ensures AnyPayee(QuotesForSuccess(payer, id)).None? && AnyPayee(QuotesForError(payer, id)).None?
    ensures AnyPayee(TransfersForSuccess(payer, id)).None? && AnyPayee(TransfersForError(payer, id)).None?
  {
    assert SUCCESS_PREFIX[|PREFIX|] == 'p' && ERROR_PREFIX[|PREFIX|] == 'p';
    assert QuotesForSuccess(payer, id)[|PREFIX|] == 'q' && QuotesForError(payer, id)[|PREFIX|] == 'q';
    assert TransfersForSuccess(payer, id)[|PREFIX|] == 't' && TransfersForError(payer, id)[|PREFIX|] == 't';
  }

  /** The rewritten text has the same tokens but for the second; rewriting again changes nothing. */
  lemma RewriteTokens(text: string)
    requires |Split(text, ':')| >= 2
    ensures Split(Rewrite(text), ':') == Split(text, ':')[1 := ANY_PAYEE]
    ensures Rewrite(Rewrite(text)) == Rewrite(text)
  {
    hide Join, Split, ANY_PAYEE;
    PlainAny();
    SplitPiecesPlain(text, ':');
    var tokens := Split(text, ':');
    SplitJoin(tokens[1 := ANY_PAYEE], ':');
    assert tokens[1 := ANY_PAYEE][1 := ANY_PAYEE] == tokens[1 := ANY_PAYEE];
  }

  /** For every subject: the rewrite keeps prefix and tokens but for the second, and is idempotent. */
  lemma AnyPayeeMeaning(subject: string)
    requires AnyPayee(subject).Some?
    ensures PrefixOf(subject).Some? && PrefixOf(AnyPayee(subject).value) == PrefixOf(subject)
    ensures var n := |PrefixOf(subject).value|;
      && |Split(subject[n..], ':')| >= 4
      && Split(AnyPayee(subject).value[n..], ':') == Split(subject[n..], ':')[1 := ANY_PAYEE]
    ensures AnyPayee(AnyPayee(subject).value) == AnyPayee(subject)
  {
    hide Split, Join, Rewrite, ANY_PAYEE;
    var prefix := PrefixOf(subject).value;
    var text := subject[|prefix|..];
    RewriteTokens(text);
    PrefixOfParties(Rewrite(text));
    assert (prefix + Rewrite(text))[|prefix|..] == Rewrite(text);
  }

  // ---- which waiter an answer reaches --------------------------------------------------------------------------

  lemma PayerFirst(p: string, q: string, x: string, y: string)
    requires ':' !in p && ':' !in q
    ensures p + ":" + x == q + ":" + y <==> p == q && x == y
  {
    hide Split;
    SplitPlain(p, ':');
    SplitPlain(q, ':');
    SplitSeparator(p, ':', x);
    SplitSeparator(q, ':', y);
    if p + ":" + x == q + ":" + y {
      assert p + ":" + x == p + [':'] + x && q + ":" + y == q + [':'] + y;
      assert Split(p + ":" + x, ':')[0] == p && Split(q + ":" + y, ':')[0] == q;
      CancelPrefix(p + ":", x, y);
    }
  }

  lemma RewriteSelectsUnder(
    prefix: string, payer: string, payee: string, idType: string, id: string, subId: Option<string>,
    waiter: string, idType': string, id': string, subId': Option<string>)
    requires prefix == SUCCESS_PREFIX || prefix == ERROR_PREFIX
    requires ':' !in payer && ':' !in payee && ':' !in waiter
    ensures AnyPayee(PartiesSubject(prefix, payer, Some(payee), idType, id, subId))
         == Some(PartiesSubject(prefix, waiter, None, idType', id', subId'))
       <==> payer == waiter && PartyText(idType, id, subId) == PartyText(idType', id', subId')
  {
    hide AnyPayee, PartiesSubject, PartyText, SUCCESS_PREFIX, ERROR_PREFIX, ANY_PAYEE;
    RewriteAgreesUnder(prefix, payer, Some(payee), idType, id, subId);
    var x, y := PartyText(idType, id, subId), PartyText(idType', id', subId');
    SubjectText(prefix, payer, None, idType, id, subId);
    SubjectText(prefix, waiter, None, idType', id', subId');
    CancelPrefix(prefix, payer + ":" + (ANY_PAYEE + ":" + x), waiter + ":" + (ANY_PAYEE + ":" + y));
    PayerFirst(payer, waiter, ANY_PAYEE + ":" + x, ANY_PAYEE + ":" + y);
    CancelPrefix(ANY_PAYEE + ":", x, y);
  }

  /**
   A rewritten answer reaches the waiter of a payer that left the payee open exactly when it is that
   payer's own answer about a party with the same text; the same for errors.
   */
  lemma RewriteSelects(
    payer: string, payee: string, idType: string, id: string, subId: Option<string>,
    waiter: string, idType': string, id': string, subId': Option<string>)
    requires ':' !in payer && ':' !in payee && ':' !in waiter
    ensures AnyPayee(PartiesForSuccess(payer, Some(payee), idType, id, subId))
         == Some(PartiesForSuccess(waiter, None, idType', id', subId'))
       <==> payer == waiter && PartyText(idType, id, subId) == PartyText(idType', id', subId')
    ensures AnyPayee(PartiesForError(payer, Some(payee), idType, id, subId))
         == Some(PartiesForError(waiter, None, idType', id', subId'))
       <==> payer == waiter && PartyText(idType, id, subId) == PartyText(idType', id', subId')
  {
    hide AnyPayee, PartiesSubject, PartyText;
    RewriteSelectsUnder(SUCCESS_PREFIX, payer, payee, idType, id, subId, waiter, idType', id', subId');
    RewriteSelectsUnder(ERROR_PREFIX, payer, payee, idType, id, subId, waiter, idType', id', subId');
  }

  /** Whatever the payers and parties, answers never reach a waiter for errors, nor errors one for answers. */
  lemma AnswersAndErrorsDoNotMix(
    payer: string, payee: Option<string>, idType: string, id: string, subId: Option<string>,
    waiter: string, payee': Option<string>, idType': string, id': string, subId': Option<string>)
    ensures AnyPayee(PartiesForSuccess(payer, payee, idType, id, subId))
         != Some(PartiesForError(waiter, payee', idType', id', subId'))
    ensures AnyPayee(PartiesForError(payer, payee, idType, id, subId))
         != Some(PartiesForSuccess(waiter, payee', idType', id', subId'))
  {
    hide PartiesSubject, PartyText, SUCCESS_PREFIX, ERROR_PREFIX, PrefixOf, Rewrite, Split, PayeeToken;
    SubjectText(SUCCESS_PREFIX, payer, payee, idType, id, subId);
    SubjectText(ERROR_PREFIX, payer, payee, idType, id, subId);
    SubjectText(SUCCESS_PREFIX, waiter, payee', idType', id', subId');
    SubjectText(ERROR_PREFIX, waiter, payee', idType', id', subId');
    var x := payer + ":" + (PayeeToken(payee) + ":" + PartyText(idType, id, subId));
    var y := waiter + ":" + (PayeeToken(payee') + ":" + PartyText(idType', id', subId'));
    PrefixOfParties(x);
    PrefixOfParties(y);
    DifferentPrefixes();
    if AnyPayee(SUCCESS_PREFIX + x).Some? { AnyPayeeMeaning(SUCCESS_PREFIX + x); }
    if AnyPayee(ERROR_PREFIX + x).Some? { AnyPayeeMeaning(ERROR_PREFIX + x); }
  }

  lemma DifferentPrefixes()
    ensures SUCCESS_PREFIX != ERROR_PREFIX
  {
    PrefixesDiffer("", "");
    assert SUCCESS_PREFIX + "" == SUCCESS_PREFIX && ERROR_PREFIX + "" == ERROR_PREFIX;
  }

  // ---- which parties have the same text ----------------------------------------------------------------------------

  // An empty sub id is none.
  function SubOf(subId: Option<string>): Option<string> {
    if subId == Some("") then None else subId
  }

  function SubText(subId: Option<string>): (r: string)
    ensures r == "" <==> SubOf(subId).None?
    ensures r != "" ==> SubOf(subId).Some? && SubOf(subId).value != "" && r == ":" + SubOf(subId).value
  {
    if subId.Some? && subId.value != "" then ":" + subId.value else ""
  }

  predicate SameParty(
    idType: string, id: string, subId: Option<string>, idType': string, id': string, subId': Option<string>)
  {
    idType == idType' && id == id' && SubOf(subId) == SubOf(subId')
  }

  // Id types are compared first; what is left is id and sub id run together.
  lemma PartyTextParts(
    idType: string, id: string, subId: Option<string>, idType': string, id': string, subId': Option<string>)
    requires ':' !in idType && ':' !in idType'
    ensures PartyText(idType, id, subId) == PartyText(idType', id', subId')
       <==> idType == idType' && id + SubText(subId) == id' + SubText(subId')
  {
    hide SubOf;
    var x, y := id + SubText(subId), id' + SubText(subId');
    assert PartyText(idType, id, subId) == idType + ":" + x;
    assert PartyText(idType', id', subId') == idType' + ":" + y;
    PayerFirst(idType, idType', x, y);
  }

  lemma SubTextInjective(subId: Option<string>, subId': Option<string>)
    ensures SubText(subId) == SubText(subId') <==> SubOf(subId) == SubOf(subId')
  {
    if SubText(subId) != "" && SubText(subId') != "" {
      CancelPrefix(":", SubOf(subId).value, SubOf(subId').value);
    }
  }

  /** Where id types and ids contain no colon, equal text means the same party. */
  lemma PartyTextIsParty(
    idType: string, id: string, subId: Option<string>, idType': string, id': string, subId': Option<string>)
    requires ':' !in idType && ':' !in idType' && ':' !in id && ':' !in id'
    ensures PartyText(idType, id, subId) == PartyText(idType', id', subId')
       <==> SameParty(idType, id, subId, idType', id', subId')
  {
    hide PartyText, SubText, SubOf, Split;
    PartyTextParts(idType, id, subId, idType', id', subId');
    SubTextInjective(subId, subId');
    SplitFirst(id, ':', SubText(subId));
    SplitFirst(id', ':', SubText(subId'));
    if id == id' { CancelPrefix(id, SubText(subId), SubText(subId')); }
  }

  /** The id has no colon but perhaps a last one, and there is no sub id. */
  predicate HasOwnText(id: string, subId: Option<string>) {
    SubOf(subId).None? && (id == "" || ':' !in id[..|id| - 1])
  }

  lemma ColonInside(id: string, sub: string)
    requires sub != ""
    ensures var all := id + (":" + sub); ':' in all[..|all| - 1]
  {
    var all := id + (":" + sub);
    assert all[..|all| - 1][|id|] == ':';
  }

  lemma OwnText(idType: string, id: string, subId: Option<string>, id': string, subId': Option<string>)
    requires ':' !in idType && HasOwnText(id, subId)
    requires PartyText(idType, id, subId) == PartyText(idType, id', subId')
    ensures SameParty(idType, id, subId, idType, id', subId')
  {
    hide PartyText, SubText, SubOf;
    PartyTextParts(idType, id, subId, idType, id', subId');
    assert id + SubText(subId) == id;
    if SubText(subId') != "" {
      ColonInside(id', SubOf(subId').value);
    } else {
      assert id' + SubText(subId') == id';
    }
  }

  // Another party with the same text.
  lemma SharedText(idType: string, id: string, subId: Option<string>) returns (id': string, subId': Option<string>)
    requires ':' !in idType && !HasOwnText(id, subId)
    ensures PartyText(idType, id', subId') == PartyText(idType, id, subId)
    ensures !SameParty(idType, id, subId, idType, id', subId')
  {
    hide PartyText;
    if SubOf(subId).Some? {
      id', subId' := id + SubText(subId), None;
      assert id' + SubText(subId') == id';
    } else {
      var k :| 0 <= k < |id| - 1 && id[..|id| - 1][k] == ':';
      id', subId' := id[..k], Some(id[k + 1..]);
      assert id == id[..k] + ([':'] + id[k + 1..]);
      assert id + SubText(subId) == id' + SubText(subId');
    }
    PartyTextParts(idType, id, subId, idType, id', subId');
  }

  /**
   A rewritten answer about a party reaches no waiter for another party, of all id types without a colon,
   exactly when its id has no colon before the last character and there is no sub id.
   */
  lemma AnswerReachesOnlyItsPartyExactly(
    payer: string, payee: string, idType: string, id: string, subId: Option<string>)
    requires ':' !in payer && ':' !in payee && ':' !in idType
    ensures (forall idType': string, id': string, subId': Option<string> |
               ':' !in idType' && AnyPayee(PartiesForSuccess(payer, Some(payee), idType, id, subId))
                               == Some(PartiesForSuccess(payer, None, idType', id', subId')) ::
               SameParty(idType, id, subId, idType', id', subId'))
       <==> HasOwnText(id, subId)
  {
    hide *;
    if HasOwnText(id, subId) {
      forall idType': string, id': string, subId': Option<string> |
          ':' !in idType' && AnyPayee(PartiesForSuccess(payer, Some(payee), idType, id, subId))
                          == Some(PartiesForSuccess(payer, None, idType', id', subId'))
        ensures SameParty(idType, id, subId, idType', id', subId')
      {
        RewriteSelects(payer, payee, idType, id, subId, payer, idType', id', subId');
        PartyTextParts(idType, id, subId, idType', id', subId');
        OwnText(idType, id, subId, id', subId');
      }
    } else {
      var id', subId' := SharedText(idType, id, subId);
      RewriteSelects(payer, payee, idType, id, subId, payer, idType, id', subId');
      assert ':' !in idType;
    }
  }

  /** The smallest witness: an answer about alias "a" with sub id "b" reaches the waiter for alias "a:b". */
  lemma AnswerReachesAnotherParty()
    ensures AnyPayee(PartiesForSuccess("A", Some("B"), "ALIAS", "a", Some("b")))
         == Some(PartiesForSuccess("A", None, "ALIAS", "a:b", None))
    ensures !SameParty("ALIAS", "a", Some("b"), "ALIAS", "a:b", None)
  {
    hide AnyPayee, PartiesSubject;
    assert PartyText("ALIAS", "a", Some("b")) == PartyText("ALIAS", "a:b", None);
    RewriteSelects("A", "B", "ALIAS", "a", Some("b"), "A", "ALIAS", "a:b", None);
  }

  /** A payer with a colon: its second half is taken for the payee, and the open-payee waiter is missed. */
  lemma ColonInPayer()
    ensures AnyPayee(PartiesForSuccess("a:b", Some("c"), "ALIAS", "1", None))
         == Some(SUCCESS_PREFIX + "a:_any_:c:ALIAS:1")
    ensures AnyPayee(PartiesForSuccess("a:b", Some("c"), "ALIAS", "1", None))
         != Some(PartiesForSuccess("a:b", None, "ALIAS", "1", None))
  {
    hide *;
    ColonInPayerText();
    ColonInPayerSubject();
    AnyPayeeOfText(SUCCESS_PREFIX, "a:b:c:ALIAS:1");
    ColonIsNotRewritten();
    RewriteAgrees("a:b", Some("c"), "ALIAS", "1", None);
  }

  lemma ColonInPayerSubject()
    ensures PartiesForSuccess("a:b", Some("c"), "ALIAS", "1", None) == SUCCESS_PREFIX + "a:b:c:ALIAS:1"
  {
    hide SUCCESS_PREFIX, PartiesSubject;
    SubjectText(SUCCESS_PREFIX, "a:b", Some("c"), "ALIAS", "1", None);
    assert "a:b" + ":" + ("c" + ":" + ("ALIAS" + ":" + "1" + "")) == "a:b:c:ALIAS:1";
  }

  lemma ColonIsNotRewritten()
    ensures !RewritesToAny("a:b", PayeeToken(Some("c")))
  {
    hide Split;
    assert "a:b"[1] == ':' && |"c"| != |ANY_PAYEE|;
  }

  lemma ColonInPayerText()
    ensures |Split("a:b:c:ALIAS:1", ':')| >= 4 && Rewrite("a:b:c:ALIAS:1") == "a:_any_:c:ALIAS:1"
  {
    hide Join, Split;
    JoinOfFive("a", "b", "c", "ALIAS", "1");
    JoinOfFive("a", ANY_PAYEE, "c", "ALIAS", "1");
    SplitJoin(["a", "b", "c", "ALIAS", "1"], ':');
    assert ["a", "b", "c", "ALIAS", "1"][1 := ANY_PAYEE] == ["a", ANY_PAYEE, "c", "ALIAS", "1"];
    assert "a" + (":" + ("b" + (":" + ("c" + (":" + ("ALIAS" + (":" + "1"))))))) == "a:b:c:ALIAS:1";
    assert "a" + (":" + (ANY_PAYEE + (":" + ("c" + (":" + ("ALIAS" + (":" + "1"))))))) == "a:_any_:c:ALIAS:1";
  }

  lemma JoinOfFive(a: string, b: string, c: string, d: string, e: string)
    ensures Join([a, b, c, d, e], ':') == a + (":" + (b + (":" + (c + (":" + (d + (":" + e)))))))
  {
    JoinFirst(a, [b, c, d, e]);
    JoinFirst(b, [c, d, e]);
    JoinFirst(c, [d, e]);
    JoinFirst(d, [e]);
    JoinOne([e]);
    assert [a] + [b, c, d, e] == [a, b, c, d, e] && [b] + [c, d, e] == [b, c, d, e];
    assert [c] + [d, e] == [c, d, e] && [d] + [e] == [d, e];
  }

  lemma JoinFirst(a: string, rest: seq<string>)
    requires rest != []
    ensures Join([a] + rest, ':') == a + (":" + Join(rest, ':'))
  {
    assert ([a] + rest)[1..] == rest;
  }

  // ---- subjects of different requests differ ------------------------------------------------------------

  // A subject is the stream's prefix, its family, and what identifies the request.
  lemma FamilyDecides(family: string, x: string, family': string, y: string)
    requires ':' !in family && ':' !in family'
    ensures PREFIX + (family + ":" + x) == PREFIX + (family' + ":" + y) <==> family == family' && x == y
  {
    hide PREFIX;
    CancelPrefix(PREFIX, family + ":" + x, family' + ":" + y);
    PayerFirst(family, family', x, y);
  }

  lemma QuoteFamilies(payer: string, id: string)
    ensures QuotesForSuccess(payer, id) == PREFIX + ("quotes" + ":" + (payer + ":" + id))
    ensures QuotesForError(payer, id) == PREFIX + ("quotes-error" + ":" + (payer + ":" + id))
  {
    hide PREFIX;
    assert "quotes" + ":" == "quotes:" && "quotes-error" + ":" == "quotes-error:";
  }

  lemma TransferFamilies(payer: string, id: string)
    ensures TransfersForSuccess(payer, id) == PREFIX + ("transfers" + ":" + (payer + ":" + id))
    ensures TransfersForError(payer, id) == PREFIX + ("transfers-error" + ":" + (payer + ":" + id))
  {
    hide PREFIX;
    assert "transfers" + ":" == "transfers:" && "transfers-error" + ":" == "transfers-error:";
  }

  lemma PartyFamilies(payer: string, payee: Option<string>, idType: string, id: string, subId: Option<string>)
    ensures var rest := payer + ":" + (PayeeToken(payee) + ":" + PartyText(idType, id, subId));
      && PartiesForSuccess(payer, payee, idType, id, subId) == PREFIX + ("parties" + ":" + rest)
      && PartiesForError(payer, payee, idType, id, subId) == PREFIX + ("parties-error" + ":" + rest)
  {
    hide PREFIX, PartiesSubject, PartyText, PayeeToken;
    SubjectText(SUCCESS_PREFIX, payer, payee, idType, id, subId);
    SubjectText(ERROR_PREFIX, payer, payee, idType, id, subId);
    assert "parties" + ":" == "parties:" && "parties-error" + ":" == "parties-error:";
  }

  /** With colon-free payers, subjects of one family are equal only for the same payer and the same request. */
  lemma SubjectsIdentifyRequests(payer: string, id: string, payer': string, id': string)
    requires ':' !in payer && ':' !in payer'
    ensures QuotesForSuccess(payer, id) == QuotesForSuccess(payer', id') <==> payer == payer' && id == id'
    ensures QuotesForError(payer, id) == QuotesForError(payer', id') <==> payer == payer' && id == id'
    ensures TransfersForSuccess(payer, id) == TransfersForSuccess(payer', id') <==> payer == payer' && id == id'
    ensures TransfersForError(payer, id) == TransfersForError(payer', id') <==> payer == payer' && id == id'
  {
    hide *;
    QuoteFamilies(payer, id);
    QuoteFamilies(payer', id');
    TransferFamilies(payer, id);
    TransferFamilies(payer', id');
    PayerFirst(payer, payer', id, id');
    var x, y := payer + ":" + id, payer' + ":" + id';
    FamilyDecides("quotes", x, "quotes", y);
    FamilyDecides("quotes-error", x, "quotes-error", y);
    FamilyDecides("transfers", x, "transfers", y);
    FamilyDecides("transfers-error", x, "transfers-error", y);
  }

  /** The same for parties: equal subjects mean one payer, one payee and one party text. */
  lemma PartySubjectsIdentifyRequests(
    payer: string, payee: Option<string>, idType: string, id: string, subId: Option<string>,
    payer': string, payee': Option<string>, idType': string, id': string, subId': Option<string>)
    requires ':' !in payer && ':' !in payer' && ':' !in PayeeToken(payee) && ':' !in PayeeToken(payee')
    ensures PartiesForSuccess(payer, payee, idType, id, subId)
         == PartiesForSuccess(payer', payee', idType', id', subId')
       <==> payer == payer' && PayeeToken(payee) == PayeeToken(payee')
            && PartyText(idType, id, subId) == PartyText(idType', id', subId')
    ensures PartiesForError(payer, payee, idType, id, subId)
         == PartiesForError(payer', payee', idType', id', subId')
       <==> payer == payer' && PayeeToken(payee) == PayeeToken(payee')
            && PartyText(idType, id, subId) == PartyText(idType', id', subId')
  {
    hide *;
    var x, y := PartyText(idType, id, subId), PartyText(idType', id', subId');
    var p, q := PayeeToken(payee), PayeeToken(payee');
    PartyFamilies(payer, payee, idType, id, subId);
    PartyFamilies(payer', payee', idType', id', subId');
    FamilyDecides("parties", payer + ":" + (p + ":" + x), "parties", payer' + ":" + (q + ":" + y));
    FamilyDecides("parties-error", payer + ":" + (p + ":" + x), "parties-error", payer' + ":" + (q + ":" + y));
    PayerFirst(payer, payer', p + ":" + x, q + ":" + y);
    PayerFirst(p, q, x, y);
  }

  // The six kinds of subjects.
  const FAMILIES: seq<string> := [
    "parties", "parties-error", "quotes", "quotes-error", "transfers", "transfers-error"]

  lemma FamiliesAreDistinct()
    ensures forall i | 0 <= i < |FAMILIES| :: ':' !in FAMILIES[i]
    ensures forall i, j | 0 <= i < j < |FAMILIES| :: FAMILIES[i] != FAMILIES[j]
  {}

  /** Subjects of different kinds are never equal, whatever they are about. */
  lemma FamiliesNeverMeet(i: nat, x: string, j: nat, y: string)
    requires i < |FAMILIES| && j < |FAMILIES| && i != j
    ensures PREFIX + (FAMILIES[i] + ":" + x) != PREFIX + (FAMILIES[j] + ":" + y)
  {
    hide PREFIX, FAMILIES;
    FamiliesAreDistinct();
    FamilyDecides(FAMILIES[i], x, FAMILIES[j], y);
  }

  /** Each builder's subjects belong to its own family. */
  lemma SubjectsHaveFamilies(payer: string, payee: Option<string>, idType: string, id: string, subId: Option<string>)
    ensures var party := payer + ":" + (PayeeToken(payee) + ":" + PartyText(idType, id, subId));
      var request := payer + ":" + id;
      && PartiesForSuccess(payer, payee, idType, id, subId) == PREFIX + (FAMILIES[0] + ":" + party)
      && PartiesForError(payer, payee, idType, id, subId) == PREFIX + (FAMILIES[1] + ":" + party)
      && QuotesForSuccess(payer, id) == PREFIX + (FAMILIES[2] + ":" + request)
      && QuotesForError(payer, id) == PREFIX + (FAMILIES[3] + ":" + request)
      && TransfersForSuccess(payer, id) == PREFIX + (FAMILIES[4] + ":" + request)
      && TransfersForError(payer, id) == PREFIX + (FAMILIES[5] + ":" + request)
  {
    hide PREFIX, PartiesForSuccess, PartiesForError, QuotesForSuccess, QuotesForError, TransfersForSuccess,
      TransfersForError, PartyText, PayeeToken;
    QuoteFamilies(payer, id);
    TransferFamilies(payer, id);
    PartyFamilies(payer, payee, idType, id, subId);
  }

  /** The documented example. */
  lemma DocumentedSubject()
    ensures PartiesForSuccess("DFSP-A", Some("DFSP-B"), "MSISDN", "0612345678", None)
         == "pivotal.fspiop.response.parties:" + "DFSP-A:DFSP-B:MSISDN:0612345678"
  {
    hide PartiesSubject, SUCCESS_PREFIX;
    SubjectText(SUCCESS_PREFIX, "DFSP-A", Some("DFSP-B"), "MSISDN", "0612345678", None);
    assert "DFSP-B" + ":" + ("MSISDN" + ":" + "0612345678" + "") == "DFSP-B:MSISDN:0612345678";
    assert "DFSP-A" + ":" + "DFSP-B:MSISDN:0612345678" == "DFSP-A:DFSP-B:MSISDN:0612345678";
    DocumentedPrefixes();
  }

  lemma DocumentedPrefixes()
    ensures SUCCESS_PREFIX == "pivotal.fspiop.response.parties:"
    ensures ERROR_PREFIX == "pivotal.fspiop.response.parties-error:"
  {}
}
