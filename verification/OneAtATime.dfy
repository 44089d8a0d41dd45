/** Bob Jenkins' one-at-a-time hash. */
module OneAtATimeHash {
  import opened Words
  import opened HashSteps

  /** What is done to the state behind the last byte. */
  function Finish(h: Word): Word { Spread15(Fold11(Spread3(h))) }
  function Unfinish(h: Word): Word { Unspread3(Unfold11(Unspread15(h))) }

  lemma FinishUndone(h: Word)
    ensures Unfinish(Finish(h)) == h
  {
    hide Spread3, Spread15, Fold11, Unspread3, Unspread15, Unfold11;
    Spread3Undone(h);
    Fold11Undone(Spread3(h));
    Spread15Undone(Fold11(Spread3(h)));
  }

  /** hashkit_one_at_a_time */
  method HashkitOneAtATime(key: Bytes, signed: bool) returns (value: Word)
    ensures value == Finish(Hash(OneAtATime, 0, key, signed))
  {
    hide Plus, Spread10, Fold6, Char, Spread3, Fold11, Spread15;
    value := 0;
    for ptr := 0 to |key|
      invariant value == Run(OneAtATime, 0, Chars(key, signed), ptr)
    {
      var val := Char(key[ptr], signed);
      value := Plus(value, val);
      value := Spread10(value);
      value := Fold6(value);
    }
    value := Spread3(value);
    value := Fold11(value);
    value := Spread15(value);
  }

  /** Keys of one length that differ in one byte have different hashes. */
  lemma NeverCollides(key: Bytes, other: Bytes, i: nat, signed: bool)
    requires OneByteDiffers(key, other, i)
    ensures Finish(Hash(OneAtATime, 0, key, signed)) != Finish(Hash(OneAtATime, 0, other, signed))
  {
    hide Finish, Unfinish, Hash;
    OneByteCounts(OneAtATime, 0, key, other, i, signed);
    FinishUndone(Hash(OneAtATime, 0, key, signed));
    FinishUndone(Hash(OneAtATime, 0, other, signed));
  }
}
