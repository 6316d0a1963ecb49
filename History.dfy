/**
 * The history entry the REPL records for a tokenized line (`appendHistory`
 * in redis-cli.go): the tokens are copied, the password argument of a
 * two-token `auth` or a four-token `connect` is replaced by a mask, and the
 * tokens are joined with single spaces. Handing the entry to the line
 * editor is outside this module.
 */
module History {
  import opened Strings
  import opened Tokenizer

  const Mask: string := "******"

  /** The line carries a password in the position `appendHistory` hides */
  predicate IsAuth(cmds: seq<string>)
  {
    |cmds| == 2 && ToLower(cmds[0]) == "auth"
  }

  predicate IsConnect(cmds: seq<string>)
  {
    |cmds| == 4 && ToLower(cmds[0]) == "connect"
  }

  /**
   * The tokens as recorded: the password position of `auth`/`connect`
   * masked. The command name is never masked, and the only token that can
   * change is the last one, which then becomes the mask.
   */
  function Masked(cmds: seq<string>): (r: seq<string>)
    ensures |r| == |cmds|
    ensures |cmds| > 0 ==> r[0] == cmds[0]
    ensures forall i :: 0 <= i < |cmds| ==> r[i] == cmds[i] || (i == |cmds| - 1 && r[i] == Mask)
  {
    if IsAuth(cmds) then cmds[..1] + [Mask]
    else if IsConnect(cmds) then cmds[..3] + [Mask]
    else cmds
  }

  /**
   * The history entry for a tokenized line: it starts with the command as
   * typed and ends with the last token, or with the mask in its place.
   */
  function HistoryLine(cmds: seq<string>): (h: string)
    ensures cmds == [] ==> h == ""
    ensures |cmds| > 0 ==> HasPrefix(h, cmds[0]) && HasSuffix(h, Masked(cmds)[|cmds| - 1])
  {
    if cmds == [] then ""
    else
      JoinStartsWithFirst(Masked(cmds), " ");
      JoinEndsWithLast(Masked(cmds), " ");
      Join(Masked(cmds), " ")
  }

  /**
   * `appendHistory` up to the point where the entry is handed to the line
   * editor. The caller's tokens live in an array the method may not modify,
   * so the masking only ever touches the copy.
   */
  method AppendHistory(cmds: array<string>) returns (entry: string)
    ensures entry == HistoryLine(cmds[..])
  {
    var clone := new string[cmds.Length];
    var i := 0;
    while i < cmds.Length
      invariant 0 <= i <= cmds.Length
      invariant clone[..i] == cmds[..i]
    {
      clone[i] := cmds[i];
      i := i + 1;
    }
    assert clone[..] == cmds[..];
    if clone.Length == 2 && ToLower(clone[0]) == "auth" {
      clone[1] := Mask;
      assert clone[..] == cmds[..1] + [Mask];
    }
    if clone.Length == 4 && ToLower(clone[0]) == "connect" {
      clone[3] := Mask;
      assert clone[..] == cmds[..3] + [Mask];
    }
    entry := Join(clone[..], " ");
  }

  /** `appendHistory` called on the slice of tokens a read produced */
  method AppendTokens(cmds: seq<string>) returns (entry: string)
    ensures entry == HistoryLine(cmds)
  {
    var tokens := new string[|cmds|](i requires 0 <= i < |cmds| => cmds[i]);
    assert tokens[..] == cmds;
    entry := AppendHistory(tokens);
  }

  /**
   * Only the password of `auth`/`connect` is hidden: a token changes only on
   * such a line, and on such a line the last token is always the mask.
   */
  lemma MaskedShape(cmds: seq<string>)
    ensures forall i :: 0 <= i < |cmds| ==> (Masked(cmds)[i] != cmds[i] ==> IsAuth(cmds) || IsConnect(cmds))
    ensures IsAuth(cmds) || IsConnect(cmds) ==> Masked(cmds)[|cmds| - 1] == Mask
  {
  }

  /** Masking twice is masking once: a recorded line is stable. */
  lemma MaskIdempotent(cmds: seq<string>)
    ensures Masked(Masked(cmds)) == Masked(cmds)
  {
    if IsAuth(cmds) {
      assert Masked(cmds)[0] == cmds[0];
    } else if IsConnect(cmds) {
      assert Masked(cmds)[0] == cmds[0];
    }
  }

  lemma JoinTwo(a: string, b: string)
    ensures Join([a, b], " ") == a + " " + b
  {
    assert [a, b][1..] == [b];
  }

  lemma JoinThree(a: string, b: string, c: string)
    ensures Join([a, b, c], " ") == a + " " + b + " " + c
  {
    assert [a, b, c][1..] == [b, c];
    assert [b, c][1..] == [c];
    assert Join([b, c], " ") == b + " " + c;
  }

  lemma JoinFour(a: string, b: string, c: string, d: string)
    ensures Join([a, b, c, d], " ") == a + " " + b + " " + c + " " + d
  {
    assert [a, b, c, d][1..] == [b, c, d];
    assert [b, c, d][1..] == [c, d];
    assert [c, d][1..] == [d];
    assert Join([c, d], " ") == c + " " + d;
    assert Join([b, c, d], " ") == b + " " + (c + " " + d);
  }

  /** `auth <password>` in any case is recorded as its first token and the mask. */
  lemma AuthIsMasked(cmds: seq<string>)
    requires |cmds| == 2 && ToLower(cmds[0]) == "auth"
    ensures HistoryLine(cmds) == cmds[0] + " ******"
  {
    assert cmds[..1] + [Mask] == [cmds[0], Mask];
    JoinTwo(cmds[0], Mask);
  }

  /** `connect <host> <port> <password>` keeps its first three tokens and masks the fourth. */
  lemma ConnectIsMasked(cmds: seq<string>)
    requires |cmds| == 4 && ToLower(cmds[0]) == "connect"
    ensures HistoryLine(cmds) == cmds[0] + " " + cmds[1] + " " + cmds[2] + " ******"
  {
    assert !IsAuth(cmds);
    assert cmds[..3] + [Mask] == [cmds[0], cmds[1], cmds[2], Mask];
    JoinFour(cmds[0], cmds[1], cmds[2], Mask);
  }

  /** Every other line is recorded as its tokens joined by single spaces. */
  lemma OtherLinesVerbatim(cmds: seq<string>)
    requires !IsAuth(cmds) && !IsConnect(cmds)
    ensures HistoryLine(cmds) == Join(cmds, " ")
  {
    MaskedOfOther(cmds);
  }

  lemma MaskedOfOther(cmds: seq<string>)
    requires !IsAuth(cmds) && !IsConnect(cmds)
    ensures Masked(cmds) == cmds
  {
  }

  /**
   * The three-token `auth <user> <password>` form of Redis 6 ACLs is not
   * one of the masked shapes: it is recorded with the password in the clear.
   */
  lemma AclAuthNotMasked(cmds: seq<string>)
    requires |cmds| == 3 && ToLower(cmds[0]) == "auth"
    ensures HistoryLine(cmds) == cmds[0] + " " + cmds[1] + " " + cmds[2]
    ensures HasSuffix(HistoryLine(cmds), cmds[2])
  {
    assert !IsAuth(cmds) && !IsConnect(cmds);
    assert cmds == [cmds[0], cmds[1], cmds[2]];
    JoinThree(cmds[0], cmds[1], cmds[2]);
    SuffixOfConcat(cmds[0] + " " + cmds[1] + " ", cmds[2]);
  }

  /** Reading a recorded line of plain words back gives the masked tokens. */
  lemma HistoryLineRetokenizes(cmds: seq<string>)
    requires |cmds| > 0
    requires forall i :: 0 <= i < |cmds| ==> PlainWord(cmds[i])
    ensures Tokens(HistoryLine(cmds)) == Masked(cmds)
  {
    assert PlainWord(Mask) by {
      assert Mask[0] == '*';
      assert forall k :: 0 <= k < |Mask| ==> Mask[k] == '*';
    }
    TokensOfJoin(Masked(cmds));
  }
}
