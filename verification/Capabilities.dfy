/** The text column that holds a relationship's capability tokens
    (crates/sidevers-net/src/side_store.rs): tokens joined by newlines. */
module Capabilities {
  import opened Bytes

  const CAP_SEP := '\n'

  /** The pieces once one more character has been read. */
  function Extended(pieces: seq<string>, x: char): (r: seq<string>)
    requires pieces != []
    ensures r != []
  {
    if x == CAP_SEP then pieces + [""]
    else pieces[..|pieces| - 1] + [pieces[|pieces| - 1] + [x]]
  }

  /** Rust's `split` on one character: always at least one piece. */
  function Split(s: string): (pieces: seq<string>)
    ensures pieces != []
  {
    if s == "" then [""] else Extended(Split(s[..|s| - 1]), s[|s| - 1])
  }

  function Joined(cs: seq<string>): string {
    if cs == [] then ""
    else if |cs| == 1 then cs[0]
    else Joined(cs[..|cs| - 1]) + [CAP_SEP] + cs[|cs| - 1]
  }

  /** An empty column holds no token. */
  function Decoded(column: string): set<string> {
    if column == "" then {} else set p | p in Split(column)
  }

  /** The tokens that come back for the tokens written, in whatever order they were. */
  function Reread(caps: set<string>): set<string> {
    if caps <= {""} then {} else set c, p | c in caps && p in Split(c) :: p
  }

  /** Nothing to lose: not the empty token alone, and no newline in any. */
  predicate Survives(caps: set<string>) {
    caps != {""} && forall c :: c in caps ==> CAP_SEP !in c
  }

  // ---------------------------------------------------------------------
  // Splitting
  // ---------------------------------------------------------------------

  lemma ExtendedTail(a: seq<string>, b: seq<string>, x: char)
    requires b != []
    ensures Extended(a + b, x) == a + Extended(b, x)
  {
    assert (a + b)[..|a + b| - 1] == a + b[..|b| - 1];
  }

  lemma SplitOn(s: string, x: char)
    ensures Split(s + [x]) == Extended(Split(s), x)
  {
    hide Extended;
    assert (s + [x])[..|s + [x]| - 1] == s;
  }

  lemma LastOf<T>(t: seq<T>)
    requires t != []
    ensures t[..|t| - 1] + [t[|t| - 1]] == t
  {
  }

  lemma SplitJointStep(joint: string, s: string, u: string, x: char)
    requires Split(joint) == Split(s) + Split(u)
    ensures Split(joint + [x]) == Split(s) + Split(u + [x])
  {
    hide Split, Extended;
    SplitOn(joint, x);
    SplitOn(u, x);
    ExtendedTail(Split(s), Split(u), x);
  }

  lemma SplitNothing(s: string)
    ensures Split(s + [CAP_SEP]) == Split(s) + Split("")
  {
    SplitOn(s, CAP_SEP);
  }

  lemma {:induction false} SplitJoint(s: string, t: string)
    ensures Split(s + [CAP_SEP] + t) == Split(s) + Split(t)
  {
    if t == "" {
      SplitNothing(s);
      assert s + [CAP_SEP] + t == s + [CAP_SEP];
    } else {
      hide Split;
      var u, x := t[..|t| - 1], t[|t| - 1];
      var joint := s + [CAP_SEP] + u;
      SplitJoint(s, u);
      SplitJointStep(joint, s, u, x);
      LastOf(t);
      Assoc(s + [CAP_SEP], u, [x]);
    }
  }

  lemma {:induction false} SplitWhole(s: string)
    requires CAP_SEP !in s
    ensures Split(s) == [s]
  {
    if s != "" {
      SplitWhole(s[..|s| - 1]);
      assert s == s[..|s| - 1] + [s[|s| - 1]];
    }
  }

  lemma {:induction false} PiecesAreWhole(s: string, p: string)
    requires p in Split(s)
    ensures CAP_SEP !in p
  {
    if s != "" {
      var before := Split(s[..|s| - 1]);
      if p in before {
        PiecesAreWhole(s[..|s| - 1], p);
      } else {
        assert before[|before| - 1] in before;
        PiecesAreWhole(s[..|s| - 1], before[|before| - 1]);
      }
    }
  }

  lemma {:induction false} JoinedPieces(cs: seq<string>, p: string)
    requires cs != []
    ensures p in Split(Joined(cs)) <==> exists c :: c in cs && p in Split(c)
  {
    if |cs| == 1 {
      assert cs[0] in cs;
    } else {
      var before, last := cs[..|cs| - 1], cs[|cs| - 1];
      assert cs == before + [last];
      JoinedPieces(before, p);
      SplitJoint(Joined(before), last);
      assert Split(Joined(cs)) == Split(Joined(before)) + Split(last);
    }
  }

  lemma {:induction false} JoinedEmpty(cs: seq<string>)
    ensures Joined(cs) == "" <==> cs == [] || cs == [""]
  {
    if |cs| == 1 {
      assert cs == [cs[0]];
    }
  }

  // ---------------------------------------------------------------------
  // The column
  // ---------------------------------------------------------------------

  /** `cs` lists the tokens, each once. */
  ghost predicate Enumerates(cs: seq<string>, caps: set<string>) {
    && (forall c :: c in cs <==> c in caps)
    && (forall i, j :: 0 <= i < j < |cs| ==> cs[i] != cs[j])
  }

  lemma OneEmptyToken(cs: seq<string>, caps: set<string>)
    requires Enumerates(cs, caps)
    ensures caps <= {""} <==> cs == [] || cs == [""]
  {
    assert forall i :: 0 <= i < |cs| ==> cs[i] in cs;
    if |cs| == 1 {
      assert cs == [cs[0]];
    } else if |cs| > 1 {
      assert cs[0] in caps && cs[1] in caps && cs[0] != cs[1];
    }
  }

  /** Decoding the joined tokens gives exactly the pieces of the tokens. */
  lemma DecodedJoined(cs: seq<string>, caps: set<string>)
    requires Enumerates(cs, caps)
    ensures Decoded(Joined(cs)) == Reread(caps)
  {
    JoinedEmpty(cs);
    OneEmptyToken(cs, caps);
    hide Joined, Split;
    if !(caps <= {""}) {
      forall p ensures p in Decoded(Joined(cs)) <==> p in Reread(caps) {
        JoinedPieces(cs, p);
      }
    }
  }

  /** The tokens survive the column exactly when none holds a newline and they are not the empty
      token alone. */
  lemma RereadExactly(caps: set<string>)
    ensures Reread(caps) == caps <==> Survives(caps)
    ensures Survives(caps) <==> caps != {""} && forall c :: c in caps ==> '\n' !in c
  {
    hide Split;
    if Survives(caps) {
      forall c | c in caps ensures Split(c) == [c] {
        SplitWhole(c);
      }
      if !(caps <= {""}) {
        forall p ensures p in Reread(caps) <==> p in caps {
          if p in caps {
            assert p in Split(p);
          }
        }
      }
    } else if caps != {""} {
      var c :| c in caps && CAP_SEP in c;
      assert !(caps <= {""});
      if c in Reread(caps) {
        var d :| d in caps && c in Split(d);
        PiecesAreWhole(d, c);
        assert false;
      }
    }
  }

  /** The column as it is built, token by token. */
  method Encode(caps: set<string>) returns (column: string)
    ensures Decoded(column) == Reread(caps)
  {
    column := "";
    var rest := caps;
    ghost var cs: seq<string> := [];
    while rest != {}
      invariant rest <= caps && column == Joined(cs)
      invariant Enumerates(cs, caps - rest)
      decreases rest
    {
      var c :| c in rest;
      assert rest == caps <==> cs == [] by {
        assert cs != [] ==> cs[0] in cs;
        assert rest == caps - (caps - rest);
      }
      if rest != caps {
        column := column + [CAP_SEP];
      }
      column := column + c;
      rest := rest - {c};
      assert (cs + [c])[..|cs|] == cs;
      cs := cs + [c];
    }
    assert caps - rest == caps;
    DecodedJoined(cs, caps);
  }
}
