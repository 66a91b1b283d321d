/** The text of a resume cursor, and when it makes the importer refuse. */
module ResumeLaws {
  import opened Options
  import opened Sessions
  import opened Plans
  import opened PlanLaws
  import opened Ledger
  import opened Imports
  import Names

  // ---- Escapes ----

  function HexValue(c: char): nat {
    if '0' <= c <= '9' then c as nat - '0' as nat else if 'a' <= c <= 'f' then c as nat - 'a' as nat + 10 else 0
  }

  /** The character after a backslash, but for u. */
  function Plain(c: char): char {
    if c == 'n' then '\n' else if c == 'r' then '\r' else if c == 't' then '\t'
    else if c == 'b' then 8 as char else if c == 'f' then 12 as char else c
  }

  /** What a JSON string stands for, for code points below 256. */
  function Unescape(s: string): string {
    if s == "" then ""
    else if s[0] != '\\' then [s[0]] + Unescape(s[1..])
    else if |s| >= 6 && s[1] == 'u' then [(16 * HexValue(s[4]) + HexValue(s[5])) as char] + Unescape(s[6..])
    else if |s| >= 2 then [Plain(s[1])] + Unescape(s[2..])
    else ""
  }

  lemma UnescapeChar(c: char, rest: string)
    ensures Unescape(EscapeChar(c) + rest) == [c] + Unescape(rest)
  {
    var e := EscapeChar(c);
    if !Quoted(c) {
      assert (e + rest)[1..] == rest;
    } else if |e| == 2 {
      assert (e + rest)[2..] == rest;
    } else {
      assert c < ' ' && e == "\\u00" + [HexDigit(c as int / 16), HexDigit(c as int % 16)];
      assert (e + rest)[6..] == rest && (e + rest)[0] == '\\' && (e + rest)[1] == 'u';
      HexDigits(c);
      assert (e + rest)[4] == HexDigit(c as int / 16) && (e + rest)[5] == HexDigit(c as int % 16);
    }
  }

  lemma HexDigits(c: char)
    requires c < ' '
    ensures 16 * HexValue(HexDigit(c as int / 16)) + HexValue(HexDigit(c as int % 16)) == c as int
  {
  }

  /** Escaping loses nothing: the JSON string stands for the text that was escaped. */
  lemma {:induction false} EscapeRoundTrip(s: string)
    ensures Unescape(Escape(s)) == s
  {
    if s != "" {
      EscapeRoundTrip(s[1..]);
      UnescapeChar(s[0], Escape(s[1..]));
      assert s == [s[0]] + s[1..];
    }
  }

  // ---- Cursors ----

  /** The JSON text of a cursor. */
  lemma ResumeTextExact(c: Resume, hex: Id -> string)
    ensures c.CodexResume? ==> ResumeText(c, hex) == "{\"threadId\":\"" + Escape(c.ptid) + "\"}"
    ensures c.ClaudeResume? ==>
              ResumeText(c, hex) ==
              "{\"threadId\":\"" + hex(c.thread) + "\",\"resume\":\"" + Escape(c.ptid) +
              ("\"" + (if c.at.Some? then ",\"resumeSessionAt\":\"" + Escape(c.at.value) + "\"" else "") +
               ",\"turnCount\":" + Names.Itoa(c.turnCount) + "}")
  {
    hide Escape, Names.Itoa;
  }

  function Around(a: string, x: string, b: string): string {
    a + x + b
  }

  ghost predicate OccursIn(x: string, s: string) {
    exists a, b :: s == Around(a, x, b)
  }

  lemma ContainsExact(s: string, x: string)
    ensures Contains(s, x) <==> OccursIn(x, s)
  {
    if Contains(s, x) {
      var i :| 0 <= i <= |s| && FoundAt(s, x, i);
      assert s == Around(s[..i], x, s[i + |x|..]);
    }
    if OccursIn(x, s) {
      var a, b :| s == Around(a, x, b);
      assert s[|a|..|a| + |x|] == x;
      assert FoundAt(s, x, |a|);
    }
  }

  /** An import goes ahead when session, root and title are given and it is not refused: a forced one when the id
      occurs in the cursor of another thread of the provider, an ordinary one when the thread is there already or
      the id occurs in any cursor, whosesoever. */
  lemma ProceedsExact(db: DB, r: Request, hex: Id -> string)
    ensures var a := r.args;
            Proceeds(db, r, hex) <==>
            a.ptid != "" && a.root != "" && a.title != "" &&
            !(if r.force then
                exists u :: u in db.runtimes && u != ThreadOf(a) && db.runtimes[u].provider == Adapter(a.provider) &&
                            OccursIn(a.ptid, ResumeText(db.runtimes[u].resume, hex))
              else
                ThreadOf(a) in db.threads ||
                exists u :: u in db.runtimes && OccursIn(a.ptid, ResumeText(db.runtimes[u].resume, hex)))
  {
    hide ResumeText, OccursIn, Contains;
    var a := r.args;
    forall u | u in db.runtimes
      ensures Mentions(db.runtimes[u], a.ptid, hex) <==> OccursIn(a.ptid, ResumeText(db.runtimes[u].resume, hex))
    {
      ContainsExact(ResumeText(db.runtimes[u].resume, hex), a.ptid);
    }
  }
}
