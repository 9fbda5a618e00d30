# Dafny project: every .dfy file below this directory
includes = ["**/*.dfy"]
