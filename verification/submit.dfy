/** The submission form's handler: the tag string is parsed, an image URL
    is chosen, and the record goes to the store. */
module Submit {
  import opened Seqs
  import opened Text
  import opened Listings
  import opened WebsiteStore
  import WebsiteDetail

  /** The values the form collects; `tags` is the raw comma-separated text. */
  datatype Form = Form(title: string, url: string, description: string, category: string, tags: string)

  /** The pieces between commas, each trimmed. */
  function TrimmedPieces(raw: string): (r: seq<string>)
    ensures |r| == |Split(raw, ',')| == Occurrences(raw, ',') + 1
    ensures forall i :: 0 <= i < |r| ==> r[i] == Trim(Split(raw, ',')[i])
    ensures forall i :: 0 <= i < |r| ==> IsTrimmed(r[i]) && ',' !in r[i]
  {
    var pieces := Split(raw, ',');
    var r := Map(pieces, Trim);
    forall i | 0 <= i < |r| ensures ',' !in r[i] {
      TrimKeepsChars(pieces[i]);
    }
    r
  }

  /** `tags.split(',').map(tag => tag.trim()).filter(Boolean)`. */
  function ParseTags(raw: string): (r: seq<string>)
    ensures forall i :: 0 <= i < |r| ==> r[i] != ""
    ensures forall i :: 0 <= i < |r| ==> IsTrimmed(r[i]) && ',' !in r[i]
    ensures IsSubseq(r, TrimmedPieces(raw))
    ensures forall t :: t != "" ==> multiset(r)[t] == multiset(TrimmedPieces(raw))[t]
    ensures |r| <= Occurrences(raw, ',') + 1
  {
    Filter(TrimmedPieces(raw), (t: string) => t != "")
  }

  /** Text made only of commas and white space yields no tags. */
  lemma NoTagsFromSeparators(raw: string)
    requires forall i :: 0 <= i < |raw| ==> raw[i] == ',' || IsSpace(raw[i])
    ensures ParseTags(raw) == []
  {
    var pieces := Split(raw, ',');
    SplitPiecesFromInput(raw, ',');
    var r := TrimmedPieces(raw);
    forall i | 0 <= i < |r| ensures r[i] == "" {
      assert AllSpace(pieces[i]) by {
        forall j | 0 <= j < |pieces[i]| ensures IsSpace(pieces[i][j]) {
          var c := pieces[i][j];
          assert c in raw && c != ',';
        }
      }
    }
    FilterNone(r, (t: string) => t != "");
  }

  /** Every character of every piece occurs in the split text. */
  lemma {:induction false} SplitPiecesFromInput(s: string, sep: char)
    ensures forall i, j :: 0 <= i < |Split(s, sep)| && 0 <= j < |Split(s, sep)[i]| ==> Split(s, sep)[i][j] in s
    decreases |s|
  {
    if |s| > 0 {
      SplitPiecesFromInput(s[1..], sep);
      var rest := Split(s[1..], sep);
      var r := Split(s, sep);
      forall i, j | 0 <= i < |r| && 0 <= j < |r[i]| ensures r[i][j] in s {
        assert forall c :: c in s[1..] ==> c in s;
        if s[0] == sep {
          assert r[i] == ([""] + rest)[i];
          assert i > 0 && r[i] == rest[i - 1];
        } else if i == 0 {
          assert r[0] == [s[0]] + rest[0];
          if j > 0 {
            assert r[0][j] == rest[0][j - 1];
          }
        } else {
          assert r[i] == rest[i];
        }
      }
    }
  }

  /** Tags that are non-empty, trimmed and comma-free survive a round trip
      through the comma-separated text. */
  lemma ParseJoinedTags(tags: seq<string>)
    requires forall i :: 0 <= i < |tags| ==> tags[i] != "" && IsTrimmed(tags[i]) && ',' !in tags[i]
    ensures ParseTags(Join(tags, ',')) == tags
  {
    var raw := Join(tags, ',');
    if |tags| == 0 {
      assert TrimmedPieces(raw) == [""];
    } else {
      SplitJoin(tags, ',');
      TrimAllFixed(tags);
      FilterAll(tags, (t: string) => t != "");
    }
  }

  /** The form's own placeholder text `"design, tools"` gives the two tags
      without the space after the comma. */
  lemma ParseTagsExample()
    ensures ParseTags("design, tools") == ["design", "tools"]
  {
    var tags := ["design", "tools"];
    assert tags[0] != "" && tags[1] != "";
    FilterAll(tags, (t: string) => t != "");
    TrimmedPiecesExample("design, tools");
  }

  lemma TrimmedPiecesExample(raw: string)
    requires raw == "design, tools"
    ensures TrimmedPieces(raw) == ["design", "tools"]
  {
    SplitExample();
    var r := TrimmedPieces(raw);
    PieceExample(Split(raw, ','), r);
  }

  lemma PieceExample(pieces: seq<string>, r: seq<string>)
    requires pieces == ["design", " tools"]
    requires |r| == |pieces| && forall i :: 0 <= i < |r| ==> r[i] == Trim(pieces[i])
    ensures r == ["design", "tools"]
  {
    TrimmedIsFixed("design");
    TrimExample();
    assert r[0] == Trim(pieces[0]);
    assert r[1] == Trim(pieces[1]);
  }

  lemma SplitExample()
    ensures Split("design, tools", ',') == ["design", " tools"]
  {
    var pieces := ["design", " tools"];
    assert pieces[1..] == [" tools"];
    assert Join(pieces[1..], ',') == " tools";
    assert Join(pieces, ',') == "design" + [','] + " tools";
    assert "design" + [','] + " tools" == "design, tools";
    SplitJoin(pieces, ',');
  }

  lemma TrimExample()
    ensures Trim(" tools") == "tools"
  {
    assert ContentStart(" tools", 0) == ContentStart(" tools", 1) == 1;
    assert ContentEnd(" tools", 1, 6) == 6;
  }

  lemma TrimAllFixed(tags: seq<string>)
    requires forall i :: 0 <= i < |tags| ==> IsTrimmed(tags[i])
    ensures Map(tags, Trim) == tags
  {
    forall i | 0 <= i < |tags| ensures Trim(tags[i]) == tags[i] {
      TrimmedIsFixed(tags[i]);
    }
  }

  const ImagePrefix: string := "https://images.unsplash.com/photo-"
  const ImageSuffix: string := "?w=400&h=200&fit=crop"

  /** The random image address, for the random number `photo` the handler
      draws from [0, 1000000000): the number's decimal digits between a
      fixed prefix and suffix. */
  function ImageUrl(photo: nat): (r: string)
    ensures |r| > |ImagePrefix| + |ImageSuffix|
    ensures r[..|ImagePrefix|] == ImagePrefix
    ensures r[|r| - |ImageSuffix|..] == ImageSuffix
    ensures forall i :: |ImagePrefix| <= i < |r| - |ImageSuffix| ==> '0' <= r[i] <= '9'
    ensures |r| - |ImageSuffix| - |ImagePrefix| > 1 ==> r[|ImagePrefix|] != '0'
    ensures DecimalValue(r[|ImagePrefix|..|r| - |ImageSuffix|]) == photo
  {
    var digits := Decimal(photo);
    var r := ImagePrefix + digits + ImageSuffix;
    assert r[|ImagePrefix|..|r| - |ImageSuffix|] == digits;
    DecimalRoundTrip(photo);
    r
  }

  /** The record handed to `addWebsite`: the form fields, with the parsed
      tags instead of the raw text and a fresh image address. */
  function Submission(f: Form, photo: nat): (d: Draft)
    ensures d.title == f.title && d.url == f.url
    ensures d.description == f.description && d.category == f.category
    ensures d.tags == ParseTags(f.tags)
    ensures d.image == ImageUrl(photo)
  {
    Draft(f.title, f.url, f.description, f.category, ParseTags(f.tags), ImageUrl(photo))
  }

  /** `onSubmit`: the store gains the new record in front; the record keeps
      the form's fields and parsed tags while the store supplies the id,
      the date and zeroed counters. */
  function OnSubmit(s: Store, f: Form, photo: nat, id: string, now: int): (r: Added)
    ensures r.store == [r.listing] + s
    ensures r.listing.title == f.title && r.listing.url == f.url
    ensures r.listing.description == f.description && r.listing.category == f.category
    ensures r.listing.tags == ParseTags(f.tags) && r.listing.image == ImageUrl(photo)
    ensures r.listing.id == id && r.listing.dateAdded == now
    ensures r.listing.rating == 0.0 && r.listing.votes == 0 && r.listing.views == 0
    ensures !r.listing.featured && !r.listing.verified
  {
    Add(s, Submission(f, photo), id, now)
  }

  /** The page the handler navigates to afterwards shows the new record. */
  lemma SubmittedListingIsShown(s: Store, f: Form, photo: nat, id: string, now: int)
    ensures WebsiteDetail.View(OnSubmit(s, f, photo, id, now).store, id).Found?
    ensures WebsiteDetail.View(OnSubmit(s, f, photo, id, now).store, id).website
         == OnSubmit(s, f, photo, id, now).listing
  {
    AddThenGetById(s, Submission(f, photo), id, now);
  }
}
