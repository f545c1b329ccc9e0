/** The submit handler of the task creation form: the two guards and the
    payload it prepares for the backend. Toasts, the submitting flag, the
    simulated delay and the redirect are not modelled. */
module TaskForm {
  import opened Wrappers
  import opened Text
  import opened Calendar

  /** The characters `String.prototype.trim` removes: ECMAScript's white space
      and line terminators. */
  predicate IsJsSpace(c: char)
  {
    c == '\t' || c == '\n' || c == '\U{000B}' || c == '\U{000C}' || c == '\r' || c == ' ' ||
    c == '\U{00A0}' || c == '\U{1680}' || ('\U{2000}' <= c <= '\U{200A}') ||
    c == '\U{2028}' || c == '\U{2029}' || c == '\U{202F}' || c == '\U{205F}' ||
    c == '\U{3000}' || c == '\U{FEFF}'
  }

  predicate AllSpace(s: string)
  {
    forall k :: 0 <= k < |s| ==> IsJsSpace(s[k])
  }

  /** Neither end of `s` is white space. */
  predicate Trimmed(s: string)
  {
    s == [] || (!IsJsSpace(s[0]) && !IsJsSpace(s[|s| - 1]))
  }

  /** `s` without its leading white space. */
  function TrimStart(s: string): (r: string)
    ensures |r| <= |s| && r == s[|s| - |r|..]
    ensures AllSpace(s[..|s| - |r|])
    ensures r == [] || !IsJsSpace(r[0])
  {
    if s == [] || !IsJsSpace(s[0]) then s else TrimStart(s[1..])
  }

  /** `s` without its trailing white space. */
  function TrimEnd(s: string): (r: string)
    ensures |r| <= |s| && r == s[..|r|]
    ensures AllSpace(s[|r|..])
    ensures r == [] || !IsJsSpace(r[|r| - 1])
  {
    if s == [] || !IsJsSpace(s[|s| - 1]) then s else TrimEnd(s[..|s| - 1])
  }

  function Trim(s: string): (r: string)
  {
    TrimEnd(TrimStart(s))
  }

  /** `Trim` cuts white space off both ends and nothing else: the input is
      some white space, the result, and some more white space. */
  lemma TrimShape(s: string)
    ensures Trimmed(Trim(s))
    ensures exists i :: 0 <= i && i + |Trim(s)| <= |s| && s[i..i + |Trim(s)|] == Trim(s)
                        && AllSpace(s[..i]) && AllSpace(s[i + |Trim(s)|..])
  {
    var t := TrimStart(s);
    var r := TrimEnd(t);
    var i := |s| - |t|;
    InnerSlice(s, i, t, r);
    if r != [] {
      assert r[0] == t[0];
    }
  }

  /** A prefix `r` of the suffix `t` of `s` from `i` sits at `i` in `s`. */
  lemma InnerSlice(s: string, i: int, t: string, r: string)
    requires 0 <= i <= |s| && t == s[i..] && |r| <= |t| && r == t[..|r|]
    ensures s[i..i + |r|] == r && s[i + |r|..] == t[|r|..]
  {
  }

  /** A title counts as blank exactly when it is all white space. */
  lemma {:induction false} TrimEmpty(s: string)
    ensures Trim(s) == [] <==> AllSpace(s)
  {
    var t := TrimStart(s);
    if t != [] {
      assert !IsJsSpace(s[|s| - |t|]);
      assert TrimEnd(t) != [] by {
        assert !IsJsSpace(t[0]);
        TrimEndKeepsNonSpace(t);
      }
    }
  }

  lemma {:induction false} TrimEndKeepsNonSpace(t: string)
    requires t != [] && !IsJsSpace(t[0])
    ensures TrimEnd(t) != []
  {
    if IsJsSpace(t[|t| - 1]) {
      assert |t| > 1;
      assert t[..|t| - 1][0] == t[0];
      TrimEndKeepsNonSpace(t[..|t| - 1]);
    }
  }

  /** Trimming twice is trimming once. */
  lemma TrimIdempotent(s: string)
    ensures Trim(Trim(s)) == Trim(s)
  {
    TrimShape(s);
    TrimOfTrimmed(Trim(s));
  }

  lemma TrimOfTrimmed(s: string)
    requires Trimmed(s)
    ensures Trim(s) == s
  {
  }

  /** The `taskData` object. An undefined `projectId` is `None`. */
  datatype TaskPayload = TaskPayload(title: string, description: string, skills: seq<string>,
                                     deadline: string, projectId: Option<string>)

  datatype Submission = Rejected(message: string) | Accepted(payload: TaskPayload)

  const TitleRequired := "Task title is required"
  const DeadlineRequired := "Deadline is required"

  /** A date the calendar widget can hand over, as `format` reads it. */
  predicate CalendarDay(d: Date)
  {
    1 <= d.month <= 12 && 1 <= d.day <= 31
  }

  /** `skills.split(',').map(skill => skill.trim())`. */
  function SkillList(skills: string): seq<string>
  {
    var parts := Split(skills, ',');
    seq(|parts|, k requires 0 <= k < |parts| => Trim(parts[k]))
  }

  /** `handleSubmit` after `preventDefault`. */
  function Submit(title: string, description: string, skills: string, deadline: Option<Date>,
                  projectId: Option<string>): (r: Submission)
    requires deadline.Some? ==> CalendarDay(deadline.value)
    ensures r == Rejected(TitleRequired) <==> AllSpace(title)
    ensures r == Rejected(DeadlineRequired) <==> !AllSpace(title) && deadline.None?
    ensures r.Accepted? <==> !AllSpace(title) && deadline.Some?
    ensures r.Accepted? ==>
      r.payload.title == title && r.payload.description == description && r.payload.projectId == projectId
  {
    TrimEmpty(title);
    if Trim(title) == [] then Rejected(TitleRequired)
    else if deadline.None? then Rejected(DeadlineRequired)
    else
      Accepted(TaskPayload(title, description, SkillList(skills),
                           if deadline.Some? then FormatIsoDate(deadline.value) else "", projectId))
  }

  /** The skill list has one entry per comma-separated piece, each with both
      ends trimmed and no comma inside, and joining the untrimmed pieces gives
      back the text; it is never empty, and nothing checks that an entry names
      a skill. */
  lemma SkillListShape(title: string, description: string, skills: string, deadline: Option<Date>,
                       projectId: Option<string>)
    requires deadline.Some? ==> CalendarDay(deadline.value)
    requires Submit(title, description, skills, deadline, projectId).Accepted?
    ensures var list := Submit(title, description, skills, deadline, projectId).payload.skills;
      && |list| == Count(skills, ',') + 1
      && (forall k :: 0 <= k < |list| ==> Trimmed(list[k]) && ',' !in list[k])
      && Join(Split(skills, ','), ',') == skills
      && (forall k :: 0 <= k < |list| ==> list[k] == Trim(Split(skills, ',')[k]))
  {
    var parts := Split(skills, ',');
    var list := SkillList(skills);
    forall k | 0 <= k < |list|
      ensures Trimmed(list[k]) && ',' !in list[k]
    {
      TrimShape(parts[k]);
    }
    JoinSplit(skills, ',');
  }

  /** A blank skills field still yields one entry, the empty string. */
  lemma BlankSkills(skills: string)
    requires AllSpace(skills)
    ensures SkillList(skills) == [""]
  {
    assert ',' !in skills by {
      assert !IsJsSpace(',');
    }
    SplitNoSep(skills, ',');
    TrimEmpty(skills);
  }

  /** `s` is `yyyy-MM-dd` of `d`: three dash-separated digit fields reading
      back as its year of the era, month and day, the year at least four
      digits wide. */
  predicate IsoDateOf(s: string, d: Date)
  {
    var n := |s|;
    && n >= 10 && s[n - 6] == '-' && s[n - 3] == '-'
    && AllDigits(s[..n - 6]) && DigitsValue(s[..n - 6]) == EraYear(d.year)
    && AllDigits(s[n - 5..n - 3]) && DigitsValue(s[n - 5..n - 3]) == d.month
    && AllDigits(s[n - 2..]) && DigitsValue(s[n - 2..]) == d.day
    && (EraYear(d.year) < 10000 ==> n == 10)
  }

  lemma IsoDateOfFormat(d: Date)
    requires CalendarDay(d)
    ensures IsoDateOf(FormatIsoDate(d), d)
  {
    IsoDateFields(d);
  }

  /** The deadline sent is `yyyy-MM-dd` of the chosen day, never the empty
      fallback; a day of year 0 or earlier carries its year of the era. */
  lemma DeadlineText(title: string, description: string, skills: string, deadline: Option<Date>,
                     projectId: Option<string>)
    requires deadline.Some? ==> CalendarDay(deadline.value)
    requires Submit(title, description, skills, deadline, projectId).Accepted?
    ensures IsoDateOf(Submit(title, description, skills, deadline, projectId).payload.deadline, deadline.value)
  {
    IsoDateOfFormat(deadline.value);
  }
}
