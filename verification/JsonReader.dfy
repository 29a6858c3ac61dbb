/** The reader: a cursor over the document, a stack of the values being read, and the errors. */
module JsonReader {
  import opened Wrappers
  import opened JsonText
  import opened JsonValue
  import opened JsonGrammar
  import JsonSpelling
  import JsonAccepted

  class Reader {
    const features: Features
    var doc: string
    var current: nat
    var errors: seq<Token>
    var nodes: seq<Value>

    constructor (features: Features)
      ensures this.features == features
    {
      this.features := features;
      doc, current, errors, nodes := [], 0, [], [];
    }

    ghost predicate Valid()
      reads `doc, `current, `nodes
    {
      current <= |doc| && nodes != []
    }

    // Tokens.

    method GetNextChar() returns (c: char)
      requires current <= |doc|
      modifies `current
      ensures c == At(doc, old(current)) && current == if old(current) < |doc| then old(current) + 1 else old(current)
    {
      if current == |doc| {
        return '\0';
      }
      c := doc[current];
      current := current + 1;
    }

    method SkipSpaces'()
      requires current <= |doc|
      modifies `current
      ensures current == SkipSpaces(doc, old(current))
    {
      while current != |doc| && IsSpace(doc[current])
        invariant old(current) <= current <= |doc| && SkipSpaces(doc, current) == SkipSpaces(doc, old(current))
        decreases |doc| - current
      {
        current := current + 1;
      }
    }

    method Match(pattern: string) returns (ok: bool)
      requires current <= |doc|
      modifies `current
      ensures ok <==> HasWord(doc, old(current), pattern)
      ensures current == if ok then old(current) + |pattern| else old(current)
    {
      if |doc| - current < |pattern| {
        return false;
      }
      var index := |pattern|;
      while index > 0
        invariant 0 <= index <= |pattern| && current == old(current)
        invariant forall j :: index <= j < |pattern| ==> doc[current + j] == pattern[j]
      {
        index := index - 1;
        if doc[current + index] != pattern[index] {
          assert doc[current..current + |pattern|][index] != pattern[index];
          return false;
        }
      }
      assert doc[current..current + |pattern|] == pattern;
      current := current + |pattern|;
      return true;
    }

    method ReadBlockComment() returns (ok: bool)
      requires current <= |doc|
      modifies `current
      ensures match BlockEnd(doc, old(current))
        case Some(q) => ok && current == q
        case None => !ok && current == |doc|
    {
      while current != |doc|
        invariant old(current) <= current <= |doc| && BlockEnd(doc, current) == BlockEnd(doc, old(current))
        decreases |doc| - current
      {
        var c := GetNextChar();
        if c == '*' && At(doc, current) == '/' {
          break;
        }
      }
      var last := GetNextChar();
      return last == '/';
    }

    method ReadLineComment()
      requires current <= |doc|
      modifies `current
      ensures current == LineEnd(doc, old(current))
    {
      while current != |doc|
        invariant old(current) <= current <= |doc| && LineEnd(doc, current) == LineEnd(doc, old(current))
        decreases |doc| - current
      {
        var c := GetNextChar();
        if c == '\r' || c == '\n' {
          break;
        }
      }
    }

    method ReadComment() returns (ok: bool)
      requires 0 < current <= |doc|
      modifies `current
      ensures var t := CommentToken(doc, old(current)); (ok <==> t.kind == Comment) && current == t.end
    {
      ok := false;
      var c := GetNextChar();
      if c == '*' {
        ok := ReadBlockComment();
      } else if c == '/' {
        ReadLineComment();
        ok := true;
      }
    }

    method ReadNumber()
      requires current <= |doc|
      modifies `current
      ensures current == NumberEnd(doc, old(current))
    {
      while current != |doc|
        invariant old(current) <= current <= |doc| && NumberEnd(doc, current) == NumberEnd(doc, old(current))
        decreases |doc| - current
      {
        if !IsNumeric(doc[current]) {
          break;
        }
        current := current + 1;
      }
    }

    method ReadString() returns (ok: bool)
      requires current <= |doc|
      modifies `current
      ensures match StringEnd(doc, old(current))
        case Some(q) => ok && current == q
        case None => !ok && current == |doc|
    {
      var c := '\0';
      while current != |doc|
        invariant old(current) <= current <= |doc| && StringEnd(doc, current) == StringEnd(doc, old(current))
        invariant c != '\"'
        decreases |doc| - current
      {
        c := GetNextChar();
        if c == '\\' {
          var skipped := GetNextChar();
        } else if c == '\"' {
          break;
        }
      }
      return c == '\"';
    }

    method ReadToken() returns (t: Token)
      requires current <= |doc|
      modifies `current
      ensures t == Lex(doc, old(current)) && current == t.end
    {
      hide SkipSpaces, StringEnd, BlockEnd, LineEnd, NumberEnd, HasWord, IsNumeric;
      SkipSpaces'();
      var start := current;
      var c := GetNextChar();
      var ok := true;
      var kind: Kind;
      match c {
        case '{' => kind := ObjectBegin;
        case '}' => kind := ObjectEnd;
        case '[' => kind := ArrayBegin;
        case ']' => kind := ArrayEnd;
        case '\"' => kind := Text; ok := ReadString();
        case '/' => kind := Comment; ok := ReadComment();
        case '0' | '1' | '2' | '3' | '4' | '5' | '6' | '7' | '8' | '9' | '-' => kind := Numeral; ReadNumber();
        case 't' => kind := True; ok := Match("rue");
        case 'f' => kind := False; ok := Match("alse");
        case 'n' => kind := NullWord; ok := Match("ull");
        case ',' => kind := ArraySeparator;
        case ':' => kind := MemberSeparator;
        case '\0' => kind := EndOfStream;
        case _ => kind := Error; ok := false;
      }
      if !ok {
        kind := Error;
      }
      t := Token(kind, start, current);
    }

    /** Reads tokens until one is no comment, starting with `first`. */
    method SkipComments(first: Token) returns (t: Token)
      requires current == first.end <= |doc|
      modifies `current
      ensures t == if first.kind == Comment then LexPastComments(doc, first.end) else first
      ensures current == t.end <= |doc|
    {
      hide Lex;
      t := first;
      while t.kind == Comment
        invariant current == t.end <= |doc|
        invariant (if first.kind == Comment then LexPastComments(doc, first.end) else first)
               == (if t.kind == Comment then LexPastComments(doc, t.end) else t)
        decreases |doc| - current, if t.kind == Comment then 1 else 0
      {
        t := ReadToken();
      }
    }

    method ReadTokenPastComments() returns (t: Token)
      requires current <= |doc|
      modifies `current
      ensures t == LexPastComments(doc, old(current)) && current == t.end
    {
      hide Lex;
      t := ReadToken();
      t := SkipComments(t);
    }

    method SkipCommentTokens() returns (t: Token)
      requires current <= |doc|
      modifies `current
      ensures t == LexValue(doc, old(current), features) && current == t.end
    {
      hide Lex;
      t := ReadToken();
      if features.allowComments {
        t := SkipComments(t);
      }
    }

    // Errors.

    method AddError(t: Token) returns (ok: bool)
      modifies `errors
      ensures !ok && errors == old(errors) + [t]
    {
      errors := errors + [t];
      return false;
    }

    /** Skips to the next token of the kind `until`, or to the end of the document. */
    method RecoverFromError(until: Kind) returns (ok: bool)
      requires current <= |doc|
      modifies `current, `errors
      ensures !ok && errors == old(errors) && current == SkipTo(doc, old(current), until)
    {
      hide Lex;
      var errorCount := |errors|;
      while true
        invariant current <= |doc| && errors == old(errors)
        invariant SkipTo(doc, old(current), until) == SkipTo(doc, current, until)
        decreases |doc| - current
      {
        var skip := ReadToken();
        if skip.kind == until || skip.kind == EndOfStream {
          break;
        }
      }
      errors := errors[..errorCount];
      return false;
    }

    method AddErrorAndRecover(t: Token, until: Kind) returns (ok: bool)
      requires current <= |doc|
      modifies `current, `errors
      ensures !ok && errors == old(errors) + [t] && current == SkipTo(doc, old(current), until)
    {
      var added := AddError(t);
      ok := RecoverFromError(until);
    }

    // Scalars.

    /** `currentValue() = v` */
    method SetCurrent(v: Value)
      requires nodes != []
      modifies `nodes
      ensures nodes == old(nodes)[..|old(nodes)| - 1] + [v]
    {
      nodes := nodes[|nodes| - 1 := v];
    }

    /** Whether a number token has characters that a whole number has not. */
    method HasRealCharacters(t: Token) returns (isDouble: bool)
      requires t.start < t.end <= |doc| && IsNumeral(doc[t.start..t.end])
      ensures isDouble <==> !IsWhole(doc[t.start..t.end])
    {
      ghost var text := doc[t.start..t.end];
      isDouble := false;
      for inspect := t.start to t.end
        invariant isDouble <==> !IsWhole(text[..inspect - t.start])
      {
        assert text[inspect - t.start] == doc[inspect];
        WholeMore(text, inspect - t.start);
        var c := doc[inspect];
        isDouble := isDouble || c in ".eE+" || (c == '-' && inspect != t.start);
      }
      assert text[..t.end - t.start] == text;
    }

    /** The integer path multiplies by 10 only while the result does not exceed the maximum; it
        gives up exactly on the larger numbers. */
    method ReadDigits(first: nat, end: nat, maxIntegerValue: nat) returns (r: Option<nat>)
      requires first <= end <= |doc| && maxIntegerValue >= 10 && AllDigits(doc[first..end])
      ensures r == if Number(doc[first..end]) <= maxIntegerValue then Some(Number(doc[first..end])) else None
    {
      hide Number;
      ghost var digits := doc[first..end];
      var current, value: nat := first, 0;
      var threshold := maxIntegerValue / 10;
      NoDigits(digits);
      while current < end
        invariant first <= current <= end && value <= maxIntegerValue
        invariant value == Number(digits[..current - first])
      {
        var c := doc[current];
        ghost var k := current - first;
        assert c == digits[k] && IsDigit(digits[k]);
        current := current + 1;
        var digit := c as int - '0' as int;
        NumberMore(digits, k);
        if value >= threshold {
          if value > threshold || current != end || digit > maxIntegerValue % 10 {
            TooMany(digits, k, value, digit, maxIntegerValue);
            return None;
          }
        }
        value := value * 10 + digit;
      }
      assert digits[..current - first] == digits;
      return Some(value);
    }

    /** A whole number below the limits is decoded exactly, and anything else is left to the
        conversion of real numbers. */
    method DecodeNumberToken(t: Token) returns (ok: bool)
      requires nodes != [] && t.start < t.end <= |doc| && IsNumeral(doc[t.start..t.end])
      modifies `errors, `nodes
      ensures match DecodeNumber(doc[t.start..t.end], features)
        case Some(v) => ok && errors == old(errors) && nodes == old(nodes)[..|old(nodes)| - 1] + [v]
        case None => !ok && errors == old(errors) + [t] && nodes == old(nodes)
    {
      hide Number;
      var isDouble := HasRealCharacters(t);
      if isDouble {
        ok := DecodeDouble(t);
        return;
      }
      ghost var text := doc[t.start..t.end];
      assert text[0] == doc[t.start];
      var isNegative := doc[t.start] == '-';
      var first := if isNegative then t.start + 1 else t.start;
      assert doc[first..t.end] == if isNegative then text[1..] else text;
      DigitsOf(text);
      var r := ReadDigits(first, t.end, if isNegative then 0x8000_0000_0000_0000 else MAX_UINT64);
      if r == None {
        ok := DecodeDouble(t);
        return;
      }
      var value := r.value;
      if isNegative {
        SetCurrent(Int(0 - value));
      } else if value <= MAX_INT32 {
        SetCurrent(Int(value));
      } else {
        SetCurrent(UInt(value));
      }
      return true;
    }

    method DecodeDouble(t: Token) returns (ok: bool)
      requires nodes != [] && t.start <= t.end <= |doc|
      modifies `errors, `nodes
      ensures match RealNumber(doc[t.start..t.end], features)
        case Some(v) => ok && errors == old(errors) && nodes == old(nodes)[..|old(nodes)| - 1] + [v]
        case None => !ok && errors == old(errors) + [t] && nodes == old(nodes)
    {
      var value := features.scan(doc[t.start..t.end]);
      if value == None {
        ok := AddError(t);
        return;
      }
      SetCurrent(Real(value.value));
      return true;
    }

    /** Four hexadecimal digits at `from`. */
    method DecodeUnicodeEscapeSequence(t: Token, from: nat, end: nat) returns (ok: bool, next: nat, unicode: nat)
      requires from <= end <= |doc|
      modifies `errors
      ensures match Hex4(doc[from..end])
        case Some(u) => ok && unicode == u && next == from + 4 && errors == old(errors)
        case None => !ok && errors == old(errors) + [t]
    {
      next, unicode := from, 0;
      if end - from < 4 {
        ok := AddError(t);
        return;
      }
      ghost var s := doc[from..end];
      for index := 0 to 4
        invariant next == from + index && errors == old(errors)
        invariant HexDigits(s, index) == Some(unicode)
      {
        var c := doc[next];
        assert c == s[index];
        next := next + 1;
        unicode := unicode * 16;
        if '0' <= c <= '9' {
          unicode := unicode + (c as int - '0' as int);
        } else if 'a' <= c <= 'f' {
          unicode := unicode + (c as int - 'a' as int + 10);
        } else if 'A' <= c <= 'F' {
          unicode := unicode + (c as int - 'A' as int + 10);
        } else {
          NoMoreHex(s, index + 1, 4);
          ok := AddError(t);
          return;
        }
      }
      return true, next, unicode;
    }

    method DecodeUnicodeCodePoint(t: Token, from: nat, end: nat) returns (ok: bool, next: nat, unicode: nat)
      requires from <= end <= |doc|
      modifies `errors
      ensures match CodePoint(doc[from..end])
        case Some((cp, rest)) => ok && unicode == cp && from + 4 <= next <= end && rest == doc[next..end]
          && errors == old(errors)
        case None => !ok && errors == old(errors) + [t]
    {
      hide Hex4;
      ok, next, unicode := DecodeUnicodeEscapeSequence(t, from, end);
      if !ok {
        return;
      }
      assert doc[from..end][4..] == doc[next..end];
      if 0xD800 <= unicode <= 0xDBFF {
        if end - next < 6 {
          ok := AddError(t);
          return;
        }
        assert doc[next..end][0] == doc[next] && doc[next..end][1] == doc[next + 1];
        if doc[next] == '\\' && doc[next + 1] == 'u' {
          assert doc[next..end][2..] == doc[next + 2..end] && doc[next..end][6..] == doc[next + 6..end];
          var surrogatePair;
          ok, next, surrogatePair := DecodeUnicodeEscapeSequence(t, next + 2, end);
          if !ok {
            return;
          }
          unicode := 0x1_0000 + unicode % 0x400 * 0x400 + surrogatePair % 0x400;
        } else {
          ok := AddError(t);
          return;
        }
      }
    }

    /** `decodeString` */
    method DecodeText(t: Token) returns (ok: bool, decoded: string)
      requires t.start + 2 <= t.end <= |doc|
      modifies `errors
      ensures match TokenString(doc, t)
        case Some(s) => ok && decoded == s && errors == old(errors)
        case None => !ok && errors == old(errors) + [t]
    {
      hide CodePoint, CodePointToUtf8;
      decoded := "";
      var current, end := t.start + 1, t.end - 1;
      NothingInFront(Decode(doc[current..end]));
      while current != end
        invariant t.start + 1 <= current <= end && errors == old(errors)
        invariant TokenString(doc, t) == Prepend(decoded, Decode(doc[current..end]))
        decreases end - current
      {
        var c := doc[current];
        ghost var s, was := doc[current..end], decoded;
        assert s[0] == c && s[1..] == doc[current + 1..end];
        current := current + 1;
        if c == '\"' {
          NothingBehind(decoded);
          break;
        } else if c == '\\' {
          if current == end {
            ok := AddError(t);
            return;
          }
          var escape := doc[current];
          assert s[1] == escape && s[2..] == doc[current + 1..end];
          current := current + 1;
          if escape == 'u' {
            var unicode;
            ok, current, unicode := DecodeUnicodeCodePoint(t, current, end);
            if !ok {
              return;
            }
            decoded := decoded + CodePointToUtf8(unicode);
            PrependTwice(was, CodePointToUtf8(unicode), Decode(doc[current..end]));
          } else {
            match Unescaped(escape) {
              case None =>
                ok := AddError(t);
                return;
              case Some(plain) =>
                decoded := decoded + [plain];
                PrependTwice(was, [plain], Decode(doc[current..end]));
            }
          }
        } else {
          decoded := decoded + [c];
          PrependTwice(was, [c], Decode(doc[current..end]));
        }
      }
      NothingBehind(decoded);
      ok := true;
    }

    // Values.

    /** What a reading method leaves behind: the value that the grammar gives, or errors.  The
        values below the top of the stack stay as they are. */
    ghost predicate Left(r: Parsed, ok: bool, nodes0: seq<Value>, errors0: seq<Token>, start: nat)
      reads `doc, `current, `errors, `nodes
    {
      && nodes0 != [] && |nodes| == |nodes0| && nodes[..|nodes| - 1] == nodes0[..|nodes| - 1]
      && start <= current <= |doc|
      && match r
         case Reads(v, q) => ok && current == q && nodes[|nodes| - 1] == v && errors == errors0
         case Fails => !ok && errors0 < errors
    }

    method ReadValue() returns (ok: bool)
      requires Valid()
      modifies `current, `errors, `nodes
      ensures Left(ParseValue(doc, old(current), features), ok, old(nodes), old(errors), old(current))
      decreases |doc| - current, 1
    {
      hide Lex, LexValue, DecodeNumber, Decode, ParseMembers, ParseElements, SkipSpaces, IsNumeral;
      var t := SkipCommentTokens();
      match t.kind {
        case ObjectBegin =>
          ok := ReadObject();
        case ArrayBegin =>
          ok := ReadArray();
        case Numeral =>
          NumeralToken(doc, old(current), features);
          ok := DecodeNumberToken(t);
        case Text =>
          var decoded;
          ok, decoded := DecodeText(t);
          if ok {
            SetCurrent(Str(UpToNul(decoded)));
          }
        case True =>
          SetCurrent(Bool(true));
          ok := true;
        case False =>
          SetCurrent(Bool(false));
          ok := true;
        case NullWord =>
          SetCurrent(Null);
          ok := true;
        case _ =>
          ok := AddError(t);
      }
    }

    /** Pushes the value that is to be read into. */
    method PushNode(v: Value)
      modifies `nodes
      ensures nodes == old(nodes) + [v]
    {
      nodes := nodes + [v];
    }

    method PopNode() returns (v: Value)
      requires nodes != []
      modifies `nodes
      ensures nodes == old(nodes)[..|old(nodes)| - 1] && v == old(nodes)[|old(nodes)| - 1]
    {
      v := nodes[|nodes| - 1];
      nodes := nodes[..|nodes| - 1];
    }

    method ReadArray() returns (ok: bool)
      requires Valid()
      modifies `current, `errors, `nodes
      ensures Left(ParseArray(doc, old(current), features), ok, old(nodes), old(errors), old(current))
      decreases |doc| - current, 3
    {
      hide Lex, LexPastComments, ParseValue, SkipSpaces, ParseElements;
      SetCurrent(Array([]));
      SkipSpaces'();
      if At(doc, current) == ']' {
        BracketToken(doc, current);
        var endArray := ReadToken();
        return true;
      }
      ghost var xs: seq<Value> := [];
      while true
        invariant old(current) <= current <= |doc| && errors == old(errors)
        invariant nodes == old(nodes)[..|old(nodes)| - 1] + [Array(xs)]
        invariant ParseElements(doc, current, xs, features) == ParseArray(doc, old(current), features)
        decreases |doc| - current
      {
        var done;
        ok, done, xs := ReadElement(xs);
        if !ok || done {
          return;
        }
      }
    }

    /** An element and the separator behind it; `done` at the end of the array. */
    method ReadElement(ghost xs: seq<Value>) returns (ok: bool, done: bool, ghost more: seq<Value>)
      requires Valid() && nodes[|nodes| - 1] == Array(xs)
      modifies `current, `errors, `nodes
      ensures ok && !done ==>
        && old(current) < current <= |doc| && errors == old(errors)
        && nodes == old(nodes)[..|old(nodes)| - 1] + [Array(more)]
        && ParseElements(doc, old(current), xs, features) == ParseElements(doc, current, more, features)
      ensures !ok || done ==>
        Left(ParseElements(doc, old(current), xs, features), ok, old(nodes), old(errors), old(current))
      decreases |doc| - current, 2
    {
      hide Lex, LexPastComments, ParseValue;
      done, more := false, xs;
      PushNode(Null);
      ok := ReadValue();
      var child := PopNode();
      SetCurrent(Array(nodes[|nodes| - 1].items + [child]));
      if !ok {
        ok := RecoverFromError(ArrayEnd);
        return;
      }
      more := xs + [child];
      var t := ReadTokenPastComments();
      if t.kind != ArraySeparator && t.kind != ArrayEnd {
        ok := AddErrorAndRecover(t, ArrayEnd);
        return;
      }
      done := t.kind == ArrayEnd;
    }

    /** The rest of a member behind its name, and the separator; `done` at the end of the object. */
    method ReadMember(name: string, ghost ms: seq<Member>) returns (ok: bool, done: bool, ghost more: seq<Member>)
      requires Valid() && nodes[|nodes| - 1] == Object(ms)
      modifies `current, `errors, `nodes
      ensures ok && !done ==>
        && old(current) < current <= |doc| && errors == old(errors)
        && nodes == old(nodes)[..|old(nodes)| - 1] + [Object(more)]
        && ParseMember(doc, old(current), ms, name, features) == ParseMembers(doc, current, more, name, features)
      ensures !ok || done ==>
        Left(ParseMember(doc, old(current), ms, name, features), ok, old(nodes), old(errors), old(current))
      decreases |doc| - current, 2
    {
      hide Lex, LexPastComments, ParseValue, Put, Get, ParseMembers, UpToNul, SkipTo, SkipSpaces;
      done, more := false, ms;
      var colon := ReadToken();
      if colon.kind != MemberSeparator {
        ok := AddErrorAndRecover(colon, ObjectEnd);
        return;
      }
      var key := UpToNul(name);
      PushNode(Get(nodes[|nodes| - 1].members, key));
      ok := ReadValue();
      var child := PopNode();
      SetCurrent(Object(Put(nodes[|nodes| - 1].members, key, child)));
      if !ok {
        ok := RecoverFromError(ObjectEnd);
        return;
      }
      more := Put(ms, key, child);
      ghost var q := current;
      var comma := ReadToken();
      if comma.kind != ObjectEnd && comma.kind != ArraySeparator && comma.kind != Comment {
        ok := AddErrorAndRecover(comma, ObjectEnd);
        return;
      }
      PastComments(doc, q);
      comma := SkipComments(comma);
      done := comma.kind == ObjectEnd;
      ok := true;
    }

    method ReadObject() returns (ok: bool)
      requires Valid()
      modifies `current, `errors, `nodes
      ensures Left(ParseMembers(doc, old(current), [], "", features), ok, old(nodes), old(errors), old(current))
      decreases |doc| - current, 3
    {
      hide Lex, LexPastComments, ParseValue, Decode, Put, Get, SkipTo;
      SetCurrent(Object([]));
      var name := "";
      ghost var ms: seq<Member> := [];
      var tokenName: Token;
      while true
        invariant old(current) <= current <= |doc| && errors == old(errors)
        invariant nodes == old(nodes)[..|old(nodes)| - 1] + [Object(ms)]
        invariant ParseMembers(doc, current, ms, name, features) == ParseMembers(doc, old(current), [], "", features)
        decreases |doc| - current
      {
        tokenName := ReadTokenPastComments();
        if tokenName.kind == ObjectEnd && name == "" {
          return true;
        }
        if tokenName.kind != Text {
          break;
        }
        ok, name := DecodeText(tokenName);
        if !ok {
          ok := RecoverFromError(ObjectEnd);
          return;
        }
        var done;
        ok, done, ms := ReadMember(name, ms);
        if !ok || done {
          return;
        }
      }
      ok := AddErrorAndRecover(tokenName, ObjectEnd);
    }

    /** `parse`: reads a value; what follows it does not matter. */
    method Parse(document: string, root: Value) returns (ok: bool)
      modifies this
      ensures ok <==> ParseDocument(document, features).Some?
      ensures |nodes| == 1 && (ok ==> nodes[0] == ParseDocument(document, features).value)
      ensures ok <==> exists sp :: JsonSpelling.IsText(document, sp, features)
      ensures forall sp :: JsonSpelling.IsText(document, sp, features) ==>
        nodes[0] == JsonSpelling.Meaning(sp, features)
      ensures ok <==> errors == []
    {
      hide ParseValue, LexValue, LexPastComments, Lex, JsonSpelling.Spans, JsonSpelling.Meaning, JsonSpelling.Accepted;
      doc, current, errors, nodes := document, 0, [], [root];
      ok := ReadValue();
      var t := SkipCommentTokens();
      if features.strictRoot {
        if !nodes[0].Array? && !nodes[0].Object? {
          ok := AddError(Token(Error, 0, |doc|));
        }
      }
      JsonAccepted.AcceptedIff(document, features);
    }
  }

  lemma PastComments(doc: string, p: nat)
    requires p <= |doc|
    ensures var t := Lex(doc, p);
      LexPastComments(doc, p) == if t.kind == Comment then LexPastComments(doc, t.end) else t
    ensures Lex(doc, p).kind == Comment ==> p < Lex(doc, p).end
  {
    hide Lex;
  }

  lemma BracketToken(doc: string, p: nat)
    requires p < |doc| && doc[p] == ']'
    ensures Lex(doc, p) == Token(ArrayEnd, p, p + 1)
  {
  }

  lemma NumeralToken(doc: string, p: nat, f: Features)
    requires p <= |doc| && LexValue(doc, p, f).kind == Numeral
    ensures var t := LexValue(doc, p, f); IsNumeral(doc[t.start..t.end])
  {
    hide Lex;
    if f.allowComments { NumeralPastComments(doc, p); } else { NumeralAt(doc, p); }
  }

  lemma {:induction false} NumeralPastComments(doc: string, p: nat)
    requires p <= |doc| && LexPastComments(doc, p).kind == Numeral
    ensures var t := LexPastComments(doc, p); IsNumeral(doc[t.start..t.end])
    decreases |doc| - p
  {
    hide Lex;
    if Lex(doc, p).kind == Comment { NumeralPastComments(doc, Lex(doc, p).end); } else { NumeralAt(doc, p); }
  }

  lemma NumeralAt(doc: string, p: nat)
    requires p <= |doc| && Lex(doc, p).kind == Numeral
    ensures var t := Lex(doc, p); IsNumeral(doc[t.start..t.end])
  {
    var s := SkipSpaces(doc, p);
    AllNumeric(doc, s + 1);
  }

  lemma {:induction false} AllNumeric(doc: string, p: nat)
    requires p <= |doc|
    ensures forall i :: p <= i < NumberEnd(doc, p) ==> IsNumeric(doc[i])
    decreases |doc| - p
  {
    if p < |doc| && IsNumeric(doc[p]) { AllNumeric(doc, p + 1); }
  }

  lemma NothingInFront(r: Option<string>)
    ensures Prepend("", r) == r
  {
    if r.Some? { assert "" + r.value == r.value; }
  }

  lemma NothingBehind(t: string)
    ensures Prepend(t, Some("")) == Some(t)
  {
    assert t + "" == t;
  }

  lemma PrependTwice(a: string, b: string, r: Option<string>)
    ensures Prepend(a, Prepend(b, r)) == Prepend(a + b, r)
  {
    if r.Some? { assert a + (b + r.value) == a + b + r.value; }
  }

  lemma {:induction false} NoMoreHex(s: string, i: nat, n: nat)
    requires i <= n <= |s| && HexDigits(s, i) == None
    ensures HexDigits(s, n) == None
  {
    if i < n { NoMoreHex(s, i, n - 1); }
  }

  /** The characters of a number token: a digit or a sign, then numeric characters. */
  predicate IsNumeral(t: string) {
    t != [] && forall i :: 0 <= i < |t| ==> IsNumeric(t[i])
  }

  predicate AllDigits(d: string) {
    forall i :: 0 <= i < |d| ==> IsDigit(d[i])
  }

  lemma WholeMore(t: string, i: nat)
    requires IsNumeral(t) && i < |t|
    ensures IsWhole(t[..i + 1]) <==> IsWhole(t[..i]) && t[i] !in ".eE+" && (t[i] == '-' ==> i == 0)
  {
    assert forall j :: 0 <= j < i ==> t[..i + 1][j] == t[..i][j];
    assert t[..i + 1][i] == t[i];
  }

  lemma DigitsOf(t: string)
    requires IsWhole(t) && t != []
    ensures AllDigits(if t[0] == '-' then t[1..] else t)
  {
  }

  lemma NumberMore(d: string, k: nat)
    requires k < |d| && AllDigits(d)
    ensures Number(d[..k + 1]) == 10 * Number(d[..k]) + (d[k] as int - '0' as int)
  {
    assert d[..k + 1][..k] == d[..k] && d[..k + 1][k] == d[k];
  }

  lemma {:induction false} NumberGrows(d: string, k: nat)
    requires k <= |d| && AllDigits(d)
    ensures Number(d[..k]) <= Number(d)
    ensures k < |d| ==> 10 * Number(d[..k]) <= Number(d)
    decreases |d| - k
  {
    if k == |d| {
      assert d[..k] == d;
    } else {
      NumberMore(d, k);
      assert IsDigit(d[k]);
      NumberGrows(d, k + 1);
    }
  }

  /** The guard of the loop: the number is larger than `max`. */
  lemma TooMany(d: string, k: nat, value: nat, digit: int, max: nat)
    requires k < |d| && AllDigits(d)
    requires value == Number(d[..k]) && digit == d[k] as int - '0' as int && value >= max / 10 > 0
    requires value > max / 10 || k + 1 != |d| || digit > max % 10
    ensures Number(d) > max
  {
    hide Number;
    assert IsDigit(d[k]);
    NumberMore(d, k);
    NumberGrows(d, k + 1);
    if value == max / 10 && k + 1 != |d| {
      assert Number(d[..k + 1]) >= 10 * value;
    }
  }

  lemma NoDigits(d: string)
    requires AllDigits(d)
    ensures Number(d[..0]) == 0
  {
  }
}
