/** The license texts the style checker knows: the lines of the GPL notice it replaces or deletes,
    and the identifier it puts in. */
module LicenseTexts {

  // The longer lines are put together from two texts: the verifier looks only some forty
  // characters into one.
  const FREE_SOFTWARE := "This program is free software; you " + "can redistribute it and/or modify"
  const UNDER_THE_TERMS := "it under the terms of the GNU General " + "Public License version 2 as"
  const PUBLISHED_BY := "published by the Free Software Foundation;"
  const DISTRIBUTED_IN_HOPE := "This program is distributed in the " + "hope that it will be useful,"
  const WITHOUT_ANY_WARRANTY := "but WITHOUT ANY WARRANTY; without " + "even the implied warranty of"
  const FITNESS := "MERCHANTABILITY or FITNESS FOR A " + "PARTICULAR PURPOSE.  See the"
  const MORE_DETAILS := "GNU General Public License for more details."
  const RECEIVED_A_COPY := "You should have received a copy of " + "the GNU General Public License"
  const ALONG_WITH := "along with this program; if not, " + "write to the Free Software"
  const FOUNDATION := "Foundation, Inc., 59 Temple Place, " + "Suite 330, Boston, MA  02111-1307  USA"

  const GPL_LICENSE_LINES := [
    FREE_SOFTWARE, UNDER_THE_TERMS, PUBLISHED_BY, DISTRIBUTED_IN_HOPE,
    WITHOUT_ANY_WARRANTY, FITNESS, MORE_DETAILS, RECEIVED_A_COPY,
    ALONG_WITH, FOUNDATION
  ]

  const SPDX_LICENSE := "SPDX-License-Identifier: GPL-2.0-only"

  /** The characters the other checks look for or put in. */
  predicate IsMark(c: char) {
    c == '<' || c == '"' || c == '\\' || c == '@'
  }

  predicate Fits(c: char) {
    ' ' <= c && !IsMark(c) && c != ':'
  }

  lemma GplLength(text: string)
    requires text in GPL_LICENSE_LINES
    ensures |text| >= 42
  {
  }

  lemma ClearFreeSoftware()
    ensures forall i :: 0 <= i < |FREE_SOFTWARE| ==> Fits(FREE_SOFTWARE[i])
  {
  }

  lemma ClearUnderTheTerms()
    ensures forall i :: 0 <= i < |UNDER_THE_TERMS| ==> Fits(UNDER_THE_TERMS[i])
  {
  }

  lemma ClearPublishedBy()
    ensures forall i :: 0 <= i < |PUBLISHED_BY| ==> Fits(PUBLISHED_BY[i])
  {
  }

  lemma ClearDistributedInHope()
    ensures forall i :: 0 <= i < |DISTRIBUTED_IN_HOPE| ==> Fits(DISTRIBUTED_IN_HOPE[i])
  {
  }

  lemma ClearWithoutAnyWarranty()
    ensures forall i :: 0 <= i < |WITHOUT_ANY_WARRANTY| ==> Fits(WITHOUT_ANY_WARRANTY[i])
  {
  }

  lemma ClearFitness()
    ensures forall i :: 0 <= i < |FITNESS| ==> Fits(FITNESS[i])
  {
  }

  lemma ClearMoreDetails()
    ensures forall i :: 0 <= i < |MORE_DETAILS| ==> Fits(MORE_DETAILS[i])
  {
  }

  lemma ClearReceivedACopy()
    ensures forall i :: 0 <= i < |RECEIVED_A_COPY| ==> Fits(RECEIVED_A_COPY[i])
  {
  }

  lemma ClearAlongWith()
    ensures forall i :: 0 <= i < |ALONG_WITH| ==> Fits(ALONG_WITH[i])
  {
  }

  lemma ClearFoundation()
    ensures forall i :: 0 <= i < |FOUNDATION| ==> Fits(FOUNDATION[i])
  {
    hide Fits;
    ClearAddress();
    assert forall i :: 0 <= i < 35 ==> FOUNDATION[i] == "Foundation, Inc., 59 Temple Place, "[i];
    assert forall i :: 35 <= i < 73 ==> FOUNDATION[i] == "Suite 330, Boston, MA  02111-1307  USA"[i - 35];
  }

  lemma ClearAddress()
    ensures forall i :: 0 <= i < 35 ==> Fits("Foundation, Inc., 59 Temple Place, "[i])
    ensures forall i :: 0 <= i < 38 ==> Fits("Suite 330, Boston, MA  02111-1307  USA"[i])
  {
  }

  /** Neither a blank nor a comment character. */
  predicate IsSolid(c: char) {
    ' ' < c < '~' && c != '*' && c != '#' && c != '/'
  }

  lemma FirstLicenseEnds()
    ensures IsSolid(FREE_SOFTWARE[0]) && IsSolid(FREE_SOFTWARE[|FREE_SOFTWARE| - 1])
    ensures IsSolid(UNDER_THE_TERMS[0]) && IsSolid(UNDER_THE_TERMS[|UNDER_THE_TERMS| - 1])
    ensures IsSolid(PUBLISHED_BY[0]) && IsSolid(PUBLISHED_BY[|PUBLISHED_BY| - 1])
    ensures IsSolid(DISTRIBUTED_IN_HOPE[0]) && IsSolid(DISTRIBUTED_IN_HOPE[|DISTRIBUTED_IN_HOPE| - 1])
    ensures IsSolid(WITHOUT_ANY_WARRANTY[0]) && IsSolid(WITHOUT_ANY_WARRANTY[|WITHOUT_ANY_WARRANTY| - 1])
  {
  }

  lemma LastLicenseEnds()
    ensures IsSolid(FITNESS[0]) && IsSolid(FITNESS[|FITNESS| - 1])
    ensures IsSolid(MORE_DETAILS[0]) && IsSolid(MORE_DETAILS[|MORE_DETAILS| - 1])
    ensures IsSolid(RECEIVED_A_COPY[0]) && IsSolid(RECEIVED_A_COPY[|RECEIVED_A_COPY| - 1])
    ensures IsSolid(ALONG_WITH[0]) && IsSolid(ALONG_WITH[|ALONG_WITH| - 1])
    ensures IsSolid(FOUNDATION[0]) && IsSolid(FOUNDATION[|FOUNDATION| - 1])
  {
  }

  /** No license line has a mark, a colon or a control character. */
  lemma LicenseClear(text: string)
    requires text in GPL_LICENSE_LINES
    ensures forall c :: c in text ==> Fits(c)
  {
    hide Fits;
    hide FREE_SOFTWARE, UNDER_THE_TERMS, PUBLISHED_BY, DISTRIBUTED_IN_HOPE, WITHOUT_ANY_WARRANTY;
    hide FITNESS, MORE_DETAILS, RECEIVED_A_COPY, ALONG_WITH, FOUNDATION;
    ClearFreeSoftware();
    ClearUnderTheTerms();
    ClearPublishedBy();
    ClearDistributedInHope();
    ClearWithoutAnyWarranty();
    ClearFitness();
    ClearMoreDetails();
    ClearReceivedACopy();
    ClearAlongWith();
    ClearFoundation();
  }

  lemma LicenseEndsSolid(text: string)
    requires text in GPL_LICENSE_LINES
    ensures text != "" && IsSolid(text[0]) && IsSolid(text[|text| - 1])
  {
    hide IsSolid;
    hide FREE_SOFTWARE, UNDER_THE_TERMS, PUBLISHED_BY, DISTRIBUTED_IN_HOPE, WITHOUT_ANY_WARRANTY;
    hide FITNESS, MORE_DETAILS, RECEIVED_A_COPY, ALONG_WITH, FOUNDATION;
    GplLength(text);
    FirstLicenseEnds();
    LastLicenseEnds();
  }

  lemma SpdxShape()
    ensures |SPDX_LICENSE| == 37 && SPDX_LICENSE[0] == 'S' && SPDX_LICENSE[36] == 'y'
    ensures ':' in SPDX_LICENSE && 'y' in SPDX_LICENSE
  {
    assert SPDX_LICENSE[23] == ':';
  }

  lemma SpdxChars()
    ensures forall c :: c in SPDX_LICENSE ==> ' ' <= c && c != '\\'
  {
    forall i | 0 <= i < |SPDX_LICENSE|
      ensures ' ' <= SPDX_LICENSE[i] && SPDX_LICENSE[i] != '\\'
    {
    }
  }

  lemma SpdxText()
    ensures |SPDX_LICENSE| == 37 && '\n' !in SPDX_LICENSE && '\r' !in SPDX_LICENSE
    ensures '\t' !in SPDX_LICENSE
    ensures SPDX_LICENSE[0] == 'S' && SPDX_LICENSE[36] == 'y'
  {
    hide SPDX_LICENSE;
    SpdxShape();
    SpdxChars();
  }

  lemma FirstGplText()
    ensures GPL_LICENSE_LINES[0][0] == 'T'
  {
  }
}
