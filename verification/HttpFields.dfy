/**
  Header field names in http/src/http_parser.c: the matching of a name, character by character, recognises
  exactly "connection", "proxy-connection", "content-length", "transfer-encoding" and "upgrade", in upper
  or lower case.
 */
module HttpFields {
  import opened Common
  import opened HttpModel

  /** The name begins the word, in lower case. */
  predicate Begins(name: seq<byte>, word: string) {
    |name| <= |word| && forall k :: 0 <= k < |name| ==> Token(name[k]) == word[k] as int
  }

  predicate Is(name: seq<byte>, word: string) {
    |name| == |word| && Begins(name, word)
  }

  /** No word begins like this. */
  predicate NoWord(name: seq<byte>) {
    && !Begins(name, CONNECTION) && !Begins(name, PROXY_CONNECTION) && !Begins(name, CONTENT_LENGTH)
    && !Begins(name, TRANSFER_ENCODING) && !Begins(name, UPGRADE)
  }

  /** On the way along a word, at its character `index`. */
  predicate OnTheWay(name: seq<byte>, word: string, index: nat) {
    Begins(name, word) && index + 1 == |name| < |word|
  }

  /** What the matching state and the index say about the name read so far. */
  predicate Matched(h: HeaderState, index: nat, name: seq<byte>) {
    match h
    case General => NoWord(name)
    case HC => |name| == 1 && OnTheWay(name, CONNECTION, index)
    case HCO => |name| == 2 && OnTheWay(name, CONNECTION, index)
    case HCON => |name| == 3 && OnTheWay(name, CONNECTION, index)
    case MatchingConnection => |name| >= 4 && OnTheWay(name, CONNECTION, index)
    case MatchingProxyConnection => name != [] && OnTheWay(name, PROXY_CONNECTION, index)
    case MatchingContentLength => |name| >= 4 && OnTheWay(name, CONTENT_LENGTH, index)
    case MatchingTransferEncoding => name != [] && OnTheWay(name, TRANSFER_ENCODING, index)
    case MatchingUpgrade => name != [] && OnTheWay(name, UPGRADE, index)
    case Connection => Is(name, CONNECTION) || Is(name, PROXY_CONNECTION)
    case ContentLength => Is(name, CONTENT_LENGTH)
    case TransferEncoding => Is(name, TRANSFER_ENCODING)
    case Upgrade => Is(name, UPGRADE)
    case _ => false
  }

  lemma BeginsMore(name: seq<byte>, ch: byte, word: string)
    ensures Begins(name + [ch], word)
            <==> Begins(name, word) && |name| < |word| && Token(ch) == word[|name|] as int
  {
    hide Token;
    var more := name + [ch];
    if Begins(more, word) {
      assert more[|name|] == ch;
      assert forall k :: 0 <= k < |name| ==> more[k] == name[k];
    }
  }

  lemma NoWordMore(name: seq<byte>, ch: byte)
    requires NoWord(name)
    ensures NoWord(name + [ch])
  {
    hide Begins;
    BeginsMore(name, ch, CONNECTION);
    BeginsMore(name, ch, PROXY_CONNECTION);
    BeginsMore(name, ch, CONTENT_LENGTH);
    BeginsMore(name, ch, TRANSFER_ENCODING);
    BeginsMore(name, ch, UPGRADE);
  }

  /** Names are told apart by their first letter, or by their fourth. */
  lemma Apart(name: seq<byte>)
    requires name != []
    ensures Begins(name, CONNECTION) ==> Token(name[0]) == 'c' as int && (|name| >= 4 ==> Token(name[3]) == 'n' as int)
    ensures Begins(name, CONTENT_LENGTH) ==>
              Token(name[0]) == 'c' as int && (|name| >= 4 ==> Token(name[3]) == 't' as int)
    ensures Begins(name, PROXY_CONNECTION) ==> Token(name[0]) == 'p' as int
    ensures Begins(name, TRANSFER_ENCODING) ==> Token(name[0]) == 't' as int
    ensures Begins(name, UPGRADE) ==> Token(name[0]) == 'u' as int
  {
    hide Token;
  }

  /** A whole word, or one begun, is no other. */
  lemma OneWord(name: seq<byte>, word: string, other: string)
    requires name != [] && word in WORDS && other in WORDS && word != other
    requires |name| >= 4 || {word, other} != {CONNECTION, CONTENT_LENGTH}
    ensures !(Begins(name, word) && Begins(name, other))
  {
    Apart(name);
    hide Begins;
    hide Token;
  }

  const WORDS := [CONNECTION, PROXY_CONNECTION, CONTENT_LENGTH, TRANSFER_ENCODING, UPGRADE]

  /** Off the only word that was left. */
  lemma OffTheWay(name: seq<byte>, ch: byte, word: string)
    requires name != [] && word in WORDS && Begins(name, word) && !Begins(name + [ch], word)
    requires |name| >= 4 || (word != CONNECTION && word != CONTENT_LENGTH)
    ensures NoWord(name + [ch])
  {
    hide Begins;
    forall other | other in WORDS
      ensures !Begins(name + [ch], other)
    {
      BeginsMore(name, ch, other);
      if other != word {
        OneWord(name, word, other);
      }
    }
  }

  lemma AlongMatched(p: Parser, name: seq<byte>, ch: byte, word: string, hit: HeaderState)
    requires OnTheWay(name, word, p.index) && word in WORDS
    requires |name| >= 4 || (word != CONNECTION && word != CONTENT_LENGTH)
    ensures var q, more := Along(p, Token(ch), word, General, hit), name + [ch];
            if !Begins(more, word) then q.headerState == General && NoWord(more)
            else if |more| == |word| then q.headerState == hit && Is(more, word)
            else q.headerState == p.headerState && OnTheWay(more, word, q.index)
  {
    BeginsMore(name, ch, word);
    if !Begins(name + [ch], word) {
      OffTheWay(name, ch, word);
    }
    hide Begins;
    hide Token;
    hide NoWord;
  }

  /** What goes on from the three letters that two words begin with. */
  lemma ConMore(name: seq<byte>, ch: byte, index: nat)
    requires OnTheWay(name, CONNECTION, index) && name != [] && |name| <= 3
    ensures var more := name + [ch];
            && (Begins(more, CONNECTION) <==> Token(ch) == CONNECTION[|name|] as int)
            && (Begins(more, CONTENT_LENGTH) <==> Token(ch) == CONTENT_LENGTH[|name|] as int)
            && !Begins(more, PROXY_CONNECTION) && !Begins(more, TRANSFER_ENCODING) && !Begins(more, UPGRADE)
  {
    Apart(name);
    assert Begins(name, CONTENT_LENGTH) by {
      assert forall k :: 0 <= k < |name| ==> CONTENT_LENGTH[k] == CONNECTION[k];
    }
    BeginsMore(name, ch, CONNECTION);
    BeginsMore(name, ch, CONTENT_LENGTH);
    BeginsMore(name, ch, PROXY_CONNECTION);
    BeginsMore(name, ch, TRANSFER_ENCODING);
    BeginsMore(name, ch, UPGRADE);
    hide Begins;
    hide Token;
  }

  lemma ConMatched(p: Parser, name: seq<byte>, ch: byte)
    requires Matched(p.headerState, p.index, name) && Token(ch) != 0
    requires p.headerState.HC? || p.headerState.HCO? || p.headerState.HCON?
    ensures var q := FieldChar(p, ch);
            Matched(q.headerState, q.index, name + [ch])
  {
    ConMore(name, ch, p.index);
    hide Begins;
    hide Token;
    if p.headerState.HCON? {
    } else if p.headerState.HCO? {
    } else {
    }
  }

  /** A word that goes on is none any more. */
  lemma WordEnds(name: seq<byte>, ch: byte, word: string)
    requires word in WORDS && Is(name, word)
    ensures NoWord(name + [ch])
  {
    BeginsMore(name, ch, word);
    OffTheWay(name, ch, word);
  }

  lemma MatchedNext(p: Parser, name: seq<byte>, ch: byte)
    requires Matched(p.headerState, p.index, name) && name != [] && Token(ch) != 0
    ensures var q := FieldChar(p, ch);
            Matched(q.headerState, q.index, name + [ch])
  {
    hide Begins;
    hide NoWord;
    hide Token;
    hide Along;
    hide OnTheWay;
    match p.headerState
    case General => NoWordMore(name, ch);
    case HC => ConMatched(p, name, ch);
    case HCO => ConMatched(p, name, ch);
    case HCON => ConMatched(p, name, ch);
    case MatchingConnection => AlongMatched(p, name, ch, CONNECTION, Connection);
    case MatchingProxyConnection => AlongMatched(p, name, ch, PROXY_CONNECTION, Connection);
    case MatchingContentLength => AlongMatched(p, name, ch, CONTENT_LENGTH, ContentLength);
    case MatchingTransferEncoding => AlongMatched(p, name, ch, TRANSFER_ENCODING, TransferEncoding);
    case MatchingUpgrade => AlongMatched(p, name, ch, UPGRADE, Upgrade);
    case Connection =>
      NotBlank(ch);
      WordEnds(name, ch, if Is(name, CONNECTION) then CONNECTION else PROXY_CONNECTION);
    case ContentLength =>
      NotBlank(ch);
      WordEnds(name, ch, CONTENT_LENGTH);
    case TransferEncoding =>
      NotBlank(ch);
      WordEnds(name, ch, TRANSFER_ENCODING);
    case Upgrade =>
      NotBlank(ch);
      WordEnds(name, ch, UPGRADE);
  }

  lemma NotBlank(ch: byte)
    requires Token(ch) != 0
    ensures ch != ' ' as int
  {
  }

  /** The first character of a name. */
  lemma MatchedFirst(p: Parser, ch: byte)
    requires Token(ch) != 0
    ensures var o := FieldStart(p, ch);
            && o.p == p.(index := 0, state := HeaderField, headerState := o.p.headerState)
            && o.acts == [Mark(Field)] && o.fate.Go?
            && Matched(o.p.headerState, 0, [ch])
  {
    var name: seq<byte> := [ch];
    Apart(name);
    assert ch != CR && ch != LF;
    FirstBegins(ch, CONNECTION);
    FirstBegins(ch, PROXY_CONNECTION);
    FirstBegins(ch, CONTENT_LENGTH);
    FirstBegins(ch, TRANSFER_ENCODING);
    FirstBegins(ch, UPGRADE);
    hide Begins;
    hide Token;
    hide AlmostDone;
  }

  lemma FirstBegins(ch: byte, word: string)
    requires word != ""
    ensures Begins([ch], word) <==> Token(ch) == word[0] as int
  {
    hide Token;
  }

  /**
    Field names are recognised exactly: where a name ends, the matching state is that of a word just when
    the name is that word.
   */
  lemma FieldIsExact(h: HeaderState, index: nat, name: seq<byte>)
    requires Matched(h, index, name) && name != []
    ensures h.Connection? <==> Is(name, CONNECTION) || Is(name, PROXY_CONNECTION)
    ensures h.ContentLength? <==> Is(name, CONTENT_LENGTH)
    ensures h.TransferEncoding? <==> Is(name, TRANSFER_ENCODING)
    ensures h.Upgrade? <==> Is(name, UPGRADE)
  {
    Apart(name);
    hide Begins;
    hide Token;
  }
}
